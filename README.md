# Drone-image annotation loop, modelled in Dafny

An operator steps through a sequence of drone-flight images and gives each
one an action label with a key press. The tool keeps a label array and a
feature array (one flattened HSV row per image) side by side, and saves both
for training.

This project models the two annotation loops of `annotate/annotate.py` and the
state record of `shared/annotate_base.py`:

- **Forward annotation** (`Annotator.annotate`). A cursor walks over the
  images. Each key quits, goes back, kills, restores, or chooses a label.
  Choosing a label writes the label and the image's row at the cursor into
  preallocated arrays and advances. At exit the arrays are truncated to the
  cursor and filtered by the per-image keep mask.
- **Re-annotation** (`Annotator.reannotate`). A stored label array is replayed
  and overwritten in place. An edit toggle decides whether a key press keeps
  the stored label (out-of-range codes become SCAN) or applies the key rule.
- **Save**. It writes the first `num_annotated` rows of both arrays.

Layout:

- `labels.dfy` (`Labels`): the action vocabulary, the key symbols, and the key-to-label rule.
- `rows.dfy` (`Rows`): sequence versions of numpy's boolean-mask selection and of Python prefix slicing.
- `session.dfy` (`Session`): Python 2 floor division, the row width, the image transform, the run configuration `Env`, and the backward cursor move.
- `forward.dfy` (`Forward`): the forward loop as a state machine (`Step`, `Run`) and its properties.
- `replay.dfy` (`Replay`): the re-annotation loop as a state machine and its properties.
- `annotator.dfy` (`Annotation`): class `Annotator`. Its fields are those of
  `AnnotateBase`. Its loop methods work on arrays in place, and each is proved
  to end exactly where `Forward.Run` or `Replay.Run` ends.

How the foreign parts are modelled:

- The image transform (decode, crop, resize, HSV) is a function parameter `transform: Blob -> Row`.
- The action codes are a function parameter `code: Action -> int8`, since their module is not part of this model.
- The key presses are a finite `seq<Key>`.

Where the code and a natural reading of the tool's behaviour disagree, the
model follows the code:

- **Restore.** Restore sets the keep flag of the image under the cursor and
  only then steps back. So killing image 0 and pressing restore right away
  marks image 1 and leaves image 0 dropped (`Forward.KillThenRestoreStillDrops`).
  To undo a kill, go back to the killed image and restore it there
  (`Forward.BackRestoreUndoesKill`).
- **More labels than images.** Re-annotation is bounded by the stored label
  count, not by the shorter of the two counts. When the cursor reaches a label
  with no image, reading the image fails and the session ends. The model
  reports this as `finished == false`.

## Model

| member | source | states |
|---|---|---|
| `Labels.LabelFor` | annotate/annotate.py:82-95 | The chosen action is always allowed for `num_actions` (left/right only above 2, up/down only above 4), and any action other than SCAN comes only from its own key |
| `Labels.BoundKeyChooses` | annotate/annotate.py:183-196 | Pressing an action's key gives that action exactly when it is allowed; otherwise the key falls through to SCAN |
| `Session.FloorDiv` | annotate/annotate.py:32 | Python 2 integer `/`: the quotient rounded toward minus infinity, for either sign of divisor |
| `Session.RowSize` | annotate/annotate.py:32 | When the scale divides both dimensions, `w*h/s/s*c` is the byte count of the image resized to `w/s` by `h/s` (line 40) in `c` channels |
| `Session.DefaultRowSize` | annotate/annotate.py:24-32 | With 856x480 images, scale 4 and 3 channels, `w*h/s/s*c` is 77040 bytes per row |
| `Session.Back` | annotate/annotate.py:67-69 | The backward move lands one before the cursor, or stays at 0; it is the move of lines 79-80 and 165-167 too |
| `Rows.Count` | annotate/annotate.py:106-107 | The number of set flags is at most the mask length |
| `Rows.Kept` | annotate/annotate.py:106-107 | Boolean-mask selection returns exactly one element per set flag |
| `Rows.KeptIndices` | annotate/annotate.py:106-107 | The selected positions are in range, all flagged, and strictly increasing |
| `Rows.KeptAt` | annotate/annotate.py:106-107 | The k-th selected element is the element at the k-th selected position |
| `Rows.KeptIndicesComplete` | annotate/annotate.py:106-107 | Every flagged position is selected |
| `Rows.KeptAgrees` | annotate/annotate.py:106-107 | Selection depends only on the elements at flagged positions |
| `Rows.KeptAll` | annotate/annotate.py:106-107 | With no flag cleared, selection keeps everything |
| `Rows.PyPrefix` | annotate/annotate.py:113 | `s[:n]` is a prefix of `s`: exactly `n` long when `0 <= n <= len`, all of `s` when `n` is larger, and counted from the end when `n` is negative |
| `Forward.Start` | annotate/annotate.py:34-44 | Before the first key the cursor is 0, there is one label, row and flag slot per image, and every image is kept |
| `Forward.Commit` | annotate/annotate.py:97-100 | A commit writes the given label and image `i`'s row at `i` only, leaves the mask alone, and advances by one |
| `Forward.OutputLabels` | annotate/annotate.py:103-108 | The saved labels number exactly the kept flags below the cursor, so never more than the cursor |
| `Forward.OutputData` | annotate/annotate.py:103-108 | The saved rows number exactly the kept flags below the cursor, so never more than the cursor |
| `Forward.Step` | annotate/annotate.py:62-100 | One iteration keeps one label, row and flag slot per image and keeps the cursor within `0..num_images` |
| `Forward.Run` | annotate/annotate.py:44-100 | Throughout the loop `0 <= i <= num_images` and the arrays keep their length |
| `Forward.BackMovesOnlyCursor` | annotate/annotate.py:67-71 | Back moves the cursor to `max(i-1, 0)` and leaves labels, data and keep mask unchanged |
| `Forward.KillCommitsScan` | annotate/annotate.py:72-75 | Kill clears `keep[i]`, commits SCAN and image `i`'s row at `i`, advances by exactly one, and changes no other slot |
| `Forward.RestoreWritesNoRow` | annotate/annotate.py:76-81 | Restore sets `keep[i]`, moves the cursor to `max(i-1, 0)`, writes no label or row, and changes no other flag |
| `Forward.LabelKeyCommits` | annotate/annotate.py:82-100 | A label key writes the rule's label and image `i`'s row at index `i` only, leaves the mask alone, and advances by one |
| `Forward.StepKeepsCommitted` | annotate/annotate.py:62-100 | After any key, every slot below the cursor holds its image's row and a label the key rule can produce |
| `Forward.RunKeepsCommitted` | annotate/annotate.py:44-100 | The loop keeps every slot below the cursor committed |
| `Forward.QuitIgnoresLaterKeys` | annotate/annotate.py:64-66 | Quit ends the loop: nothing typed after it changes the result |
| `Forward.OutputIsKeptCommitted` | annotate/annotate.py:103-108 | The final labels and rows have equal length, one per index below the final cursor whose keep flag is set, in index order; each row is that image's row and each label is producible; no killed index is saved |
| `Forward.KeptIndexIsSaved` | annotate/annotate.py:103-108 | Every kept index below the final cursor is saved |
| `Forward.RunAgrees` | annotate/annotate.py:44-100 | Two runs that agree on the cursor, the mask and the slots below the cursor stay in agreement |
| `Forward.InitialSlotsUnobservable` | annotate/annotate.py:34-36 | Whatever the `np.empty` slots hold at the start never reaches the output |
| `Forward.ScanTargetQuit` | annotate/annotate.py:64-108 | Two actions, three images, keys space, Return, Escape: two rows are saved, labelled SCAN then TARGET |
| `Forward.KillThenRestoreStillDrops` | annotate/annotate.py:72-81 | Kill on image 0 followed by restore marks image 1, not image 0, so image 0 stays dropped |
| `Forward.BackRestoreUndoesKill` | annotate/annotate.py:67-81 | Kill, back, restore, SCAN on image 0 saves image 0 with SCAN |
| `Forward.CommittingStep` | annotate/annotate.py:72-100 | Any key other than quit, back and restore writes its code (SCAN for kill, else the key rule's) and image `i`'s row at `i`, clears the flag exactly for kill, and advances by one |
| `Forward.RunFollowsKeys` | annotate/annotate.py:44-100 | For keys that each commit an image, the t-th key's code and the t-th image's row land in the t-th slot from the cursor, the flag there is cleared exactly when the key is kill, and nothing below the cursor changes |
| `Forward.Typed` | annotate/annotate.py:72-108 | A reference for the saved labels of committing keys: one code per key other than kill, so never more codes than keys |
| `Forward.KillMask` | annotate/annotate.py:72-74 | The keep mask such keys leave: one flag per key, cleared exactly at kills |
| `Forward.KeptIsTyped` | annotate/annotate.py:106 | Masking the codes the keys wrote by the kill mask gives exactly `Typed` |
| `Forward.TypedRunSaves` | annotate/annotate.py:34-108 | From the start, committing keys over a prefix of the images save exactly the codes of the non-kill keys, in key order, with the rows of the images they were typed on |
| `Replay.Start` | annotate/annotate.py:124-142 | Before the first key the cursor is 0, the labels are the stored ones, edit is off, and there is one data slot per label |
| `Replay.Crashed` | annotate/annotate.py:143-144 | Reading the image at the cursor can fail only when there are more labels than images |
| `Replay.Coerce` | annotate/annotate.py:179-182 | The replayed code differs from the stored one exactly when the stored code is at least `num_actions` and is not SCAN's; it is then SCAN |
| `Replay.Step` | annotate/annotate.py:162-202 | One iteration keeps the label and data arrays the same length and the cursor within the label count |
| `Replay.Run` | annotate/annotate.py:142-202 | The loop is bounded by the stored label count; it can fail on a missing image only when labels outnumber images |
| `Replay.ToggleOnlyFlipsEdit` | annotate/annotate.py:170-177 | The edit key flips `edit` with no commit and no cursor move |
| `Replay.ReviewBackMovesOnlyCursor` | annotate/annotate.py:165-169 | Back moves the cursor to `max(i-1, 0)` and changes nothing else |
| `Replay.PassiveCommitIgnoresKey` | annotate/annotate.py:178-182 | With edit off, every non-control key commits the same thing: the stored code, or SCAN when it is out of range, with the image's row, and advances by one |
| `Replay.EditCommitUsesRule` | annotate/annotate.py:183-202 | With edit on, a key commits the forward loop's key rule and the image's row, and advances by one |
| `Replay.CoerceIdempotent` | annotate/annotate.py:179-182 | Replaying an already replayed code changes nothing |
| `Replay.PassiveRunReplays` | annotate/annotate.py:142-202 | Without the edit key, each label below the cursor is the replayed stored code and no label is ever anything else |
| `Replay.PassiveReviewFromStart` | annotate/annotate.py:127-205 | A passive review saves the replayed stored codes for the reviewed prefix, and a label file already in range comes back unchanged |
| `Replay.StepKeepsInRange` | annotate/annotate.py:178-202 | If every allowed action's code is below `num_actions`, each key keeps every label below the cursor in range |
| `Replay.RunKeepsInRange` | annotate/annotate.py:142-202 | Under the same condition, every reviewed label is below `num_actions`, whatever was stored |
| `Replay.RunCommitsRows` | annotate/annotate.py:142-202 | Every row below the cursor is its image's row |
| `Replay.OutOfRangeReplaysAsScan` | annotate/annotate.py:155-182 | A stored code equal to `num_actions`, replayed with edit off, is saved as SCAN |
| `Replay.Written` | annotate/annotate.py:170-202 | A reference for what a review writes when keys never quit or move back: the edit key flips the flag, any other key writes the key rule's code with edit on or the replayed stored code with edit off; never more labels than remain |
| `Replay.RunWrites` | annotate/annotate.py:142-202 | With an image for every label and keys that never quit or move back, the loop, with any mix of edit toggles, leaves the labels behind the cursor alone, writes exactly `Written`'s labels next, leaves the rest as stored, and stops just past them |
| `Replay.EditWritesRule` | annotate/annotate.py:183-196 | With edit on and no toggle, `Written` is the key rule's code for each key, one per key |
| `Replay.EditRunUsesRule` | annotate/annotate.py:142-202 | With edit on and never toggled, the t-th key writes its key-rule code at the t-th label from the cursor, labels behind the cursor stay, and the cursor moves by the number of keys |
| `Annotation.Annotator.constructor` | shared/annotate_base.py:4-16 | Nothing is loaded: no images, labels or data. Counts and dimensions are 0, scale is 4, channels 3, and `num_actions` is exactly as passed |
| `Annotation.Annotator.Default` | annotate/annotate.py:15-16 | Without an argument the annotator has four actions |
| `Annotation.Annotator.LoadData` | annotate/annotate.py:18-24 | Loading stores the images, their count and the first image's dimensions, which must be 856x480 |
| `Annotation.Annotator.Annotate` | annotate/annotate.py:26-108 | The saved label and data arrays are exactly the forward loop's output, and `num_annotated` is their common length |
| `Annotation.Annotator.AnnotationLoop` | annotate/annotate.py:44-100 | The in-place loop over the arrays ends in the state `Forward.Run` gives |
| `Annotation.Annotator.KeepCommitted` | annotate/annotate.py:103-108 | Truncating to the cursor and masking yields the kept committed rows, and `num_annotated` becomes their count |
| `Annotation.Annotator.Save` | annotate/annotate.py:111-113 | Save writes the first `num_annotated` rows of both arrays, with Python slice clamping |
| `Annotation.Annotator.Reannotate` | annotate/annotate.py:116-205 | The label array is the stored one overwritten as the replay loop ends. `num_annotated` is the final cursor, or stays the stored count when a missing image ends the session |
| `Annotation.Annotator.ReannotationLoop` | annotate/annotate.py:142-202 | The in-place loop over the loaded labels ends in the state `Replay.Run` gives and reports a missing image |
| `Annotation.AnnotateThenSave` | annotate/annotate.py:219-226 | Annotating with two actions and saving writes exactly the forward loop's output, labels and rows of equal length |

## Left out

- Image decoding, cropping, LANCZOS resizing and HSV conversion are foreign library calls. They are the parameter `transform`. The first-image check of line 42 uses the uncropped image and the loop uses the cropped one; both are resized to the same size, so one transform stands for both.
- The window, focus handling and blocking key capture are GUI plumbing. They are the key sequence. When the keys run out, the loop stops as if quit; the real window would wait.
- `np.load` and `np.savez` are file I/O. Loaded images and labels are parameters, and `Save` returns the rows it would write.
- Console output (progress lines, `(KILLED)`, the length-mismatch warning, `>>> CHANGING TO`) has no effect on state.
- `get_args` and the rest of the command-line wiring are left out. `AnnotateThenSave` shows only the forward branch of the main block.
- The action module is not part of this model. `Action.name` is not modelled, and codes are taken as a given `int8`-valued function.
- The dimension assertion (line 24) and the first-image size check (line 42) are fatal, so they are preconditions.
- `Annotation.Annotator.Annotate`: requires every image's row, not only the first, to have the expected width. A wider or narrower later row would make the row assignment at line 98 raise, which the model does not capture.
- `Annotation.Annotator.Reannotate`: requires images already loaded and at least one image. The loader call at line 117 is commented out, so the command-line `--reannotate` path never has image data and fails when it first reads it (line 137). The model does not capture that failure.
- `Annotation.Annotator.LoadData`: requires at least one image. With an empty image array, reading `image_data[0]` at line 22 raises, and the model does not capture that failure.
- `Annotation.Annotator.Annotate`: requires at least one image, for the same reason: it loads through `_load_data`, which fails at line 22 on an empty file.
- `Annotation.AnnotateThenSave`: requires at least one image, since it calls the annotation above.
- `annotate/annotate.py` calls `Image.open` (lines 22, 39, 46, 137, 144) but imports `Image` nowhere in lines 3-11, so as written every path that decodes an image raises a name error at its first `Image.open`. The model assumes the PIL import the code evidently intends.
- `Annotation.Annotator.Default`: `AnnotateBase`'s own default of 2 actions is never reached through `Annotator`, which always passes its own default of 4. Dafny has no default arguments, so the plain constructor takes the count explicitly.
- The `ImageWindow` sizes (`w/2`, `h/2`) and the crop box arithmetic feed only the GUI and the transform.
- The keep mask is a float array of 0 and 1 in the source. Here it is a boolean array.
- `np.empty` leaves the label and data slots unspecified. The model fills them with 0 and empty rows. `Forward.InitialSlotsUnobservable` shows this choice never reaches the forward output.
