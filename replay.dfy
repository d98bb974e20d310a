/// The re-annotation loop as a state machine over key presses: it replays a
/// loaded label array, overwriting it in place, with an edit toggle.
module Replay {
  import opened Labels
  import opened Session
  import opened Rows

  /** One point of the loop: the cursor, the loaded label array (written in
      place), the data array sized to the label count, and the edit flag. */
  datatype Review = Review(i: nat, labels: seq<int8>, data: seq<Row>, edit: bool)

  /** The data array matches the label array and the cursor stays within it. */
  predicate Wf(s: Review) {
    |s.data| == |s.labels| && s.i <= |s.labels|
  }

  /** The state before the first key: the stored labels, edit off. The data
      slots are unspecified by the source; they hold empty rows here. */
  function Start(stored: seq<int8>): (s: Review)
    ensures Wf(s) && s.i == 0 && s.labels == stored && !s.edit
  {
    Review(0, stored, seq(|stored|, _ => []), false)
  }

  /** The label replayed with edit off: the stored code, or SCAN when the
      stored code is not below the action count. */
  function Coerce(env: Env, c: int8): (r: int8)
    ensures r == c <==> (c as int < env.numActions || c == env.code(Scan))
    ensures r != c ==> r == env.code(Scan)
  {
    if c as int >= env.numActions then env.code(Scan) else c
  }

  /** One iteration of the loop body for a key; the image at the cursor must
      exist. Escape leaves the state as it is: Run stops on it first. */
  function Step(env: Env, s: Review, key: Key): (r: Review)
    requires Wf(s) && s.i < |s.labels| && s.i < |env.frames|
    ensures Wf(r) && |r.labels| == |s.labels|
  {
    match key
    case Escape => s
    case BackSpace => s.(i := Back(s.i))
    case KeyE => s.(edit := !s.edit)
    case _ =>
      var written :=
        if s.edit then env.code(LabelFor(key, env.numActions))
        else Coerce(env, s.labels[s.i]);
      Review(s.i + 1, s.labels[s.i := written], s.data[s.i := env.frames[s.i]], s.edit)
  }

  /** The cursor points at a label whose image does not exist: reading that
      image fails and ends the session. */
  predicate Crashed(env: Env, s: Review)
    ensures Crashed(env, s) ==> |env.frames| < |s.labels|
  {
    s.i < |s.labels| && s.i >= |env.frames|
  }

  /** The loop, bounded by the label count: it stops when the cursor reaches
      that count, when the image at the cursor is missing, when the keys run
      out, or at Escape. It fails only when there are more labels than images. */
  function Run(env: Env, s: Review, keys: seq<Key>): (r: Review)
    requires Wf(s)
    ensures Wf(r) && |r.labels| == |s.labels|
    ensures Crashed(env, r) ==> |env.frames| < |s.labels|
    decreases |keys|
  {
    if s.i >= |s.labels| || s.i >= |env.frames| || keys == [] || keys[0] == Escape then s
    else Run(env, Step(env, s, keys[0]), keys[1..])
  }

  /** One unfolding of Run at a key that does not stop it. */
  lemma RunUnfolds(env: Env, s: Review, keys: seq<Key>, t: nat)
    requires Wf(s) && s.i < |s.labels| && s.i < |env.frames| && t < |keys| && keys[t] != Escape
    ensures Run(env, s, keys[t..]) == Run(env, Step(env, s, keys[t]), keys[t + 1..])
  {
    assert keys[t..][0] == keys[t] && keys[t..][1..] == keys[t + 1..];
  }

  // ----- one command at a time -----

  /** The edit key flips the edit flag and nothing else: no commit, no move. */
  lemma ToggleOnlyFlipsEdit(env: Env, s: Review)
    requires Wf(s) && s.i < |s.labels| && s.i < |env.frames|
    ensures var r := Step(env, s, KeyE);
      r.edit == !s.edit && r.i == s.i && r.labels == s.labels && r.data == s.data
  {
  }

  /** Back moves only the cursor, to max(i-1, 0). */
  lemma ReviewBackMovesOnlyCursor(env: Env, s: Review)
    requires Wf(s) && s.i < |s.labels| && s.i < |env.frames|
    ensures var r := Step(env, s, BackSpace);
      r.i == (if s.i > 0 then s.i - 1 else 0)
      && r.labels == s.labels && r.data == s.data && r.edit == s.edit
  {
  }

  /** With edit off, every key other than quit, back and the edit key commits
      the same thing: the stored code, or SCAN if it is out of range. Which
      key was pressed does not matter. */
  lemma PassiveCommitIgnoresKey(env: Env, s: Review, k1: Key, k2: Key)
    requires Wf(s) && s.i < |s.labels| && s.i < |env.frames| && !s.edit
    requires k1 !in {Escape, BackSpace, KeyE} && k2 !in {Escape, BackSpace, KeyE}
    ensures Step(env, s, k1) == Step(env, s, k2)
    ensures var r := Step(env, s, k1);
      r.i == s.i + 1 && !r.edit
      && r.labels == s.labels[s.i := Coerce(env, s.labels[s.i])]
      && r.data == s.data[s.i := env.frames[s.i]]
  {
  }

  /** With edit on, a key commits the forward loop's key-to-label rule. */
  lemma EditCommitUsesRule(env: Env, s: Review, key: Key)
    requires Wf(s) && s.i < |s.labels| && s.i < |env.frames| && s.edit
    requires key !in {Escape, BackSpace, KeyE}
    ensures var r := Step(env, s, key);
      r.i == s.i + 1 && r.edit
      && r.labels == s.labels[s.i := env.code(LabelFor(key, env.numActions))]
      && r.data == s.data[s.i := env.frames[s.i]]
  {
  }

  /** Replaying a replayed label changes nothing. */
  lemma CoerceIdempotent(env: Env, c: int8)
    ensures Coerce(env, Coerce(env, c)) == Coerce(env, c)
  {
  }

  // ----- the whole loop -----

  /** Relation of the labels to the stored ones during a passive replay:
      below the cursor each is the replayed code, elsewhere it is either the
      stored code or the replayed one. */
  ghost predicate Replays(env: Env, stored: seq<int8>, s: Review) {
    |s.labels| == |stored|
    && (forall j :: 0 <= j < s.i && j < |stored| ==> s.labels[j] == Coerce(env, stored[j]))
    && (forall j :: 0 <= j < |stored| ==>
          s.labels[j] == stored[j] || s.labels[j] == Coerce(env, stored[j]))
  }

  /** With edit off and never toggled, the loop only ever writes back the
      replayed form of each stored code. */
  lemma {:induction false} PassiveRunReplays(env: Env, stored: seq<int8>, s: Review, keys: seq<Key>)
    requires Wf(s) && !s.edit && Replays(env, stored, s)
    requires forall k :: 0 <= k < |keys| ==> keys[k] != KeyE
    ensures !Run(env, s, keys).edit && Replays(env, stored, Run(env, s, keys))
    decreases |keys|
  {
    if !(s.i >= |s.labels| || s.i >= |env.frames| || keys == [] || keys[0] == Escape) {
      var r := Step(env, s, keys[0]);
      if keys[0] != BackSpace {
        assert Coerce(env, s.labels[s.i]) == Coerce(env, stored[s.i]) by {
          CoerceIdempotent(env, stored[s.i]);
        }
      }
      PassiveRunReplays(env, stored, r, keys[1..]);
    }
  }

  /** A passive review from the start: every reviewed label is the replayed
      stored code, and a label file already within range comes back unchanged. */
  lemma PassiveReviewFromStart(env: Env, stored: seq<int8>, keys: seq<Key>)
    requires forall k :: 0 <= k < |keys| ==> keys[k] != KeyE
    ensures var fin := Run(env, Start(stored), keys);
      fin.i <= |stored| && |fin.labels| == |stored|
      && (forall j :: 0 <= j < fin.i ==> fin.labels[j] == Coerce(env, stored[j]))
      && ((forall j :: 0 <= j < |stored| ==> stored[j] as int < env.numActions) ==> fin.labels == stored)
  {
    PassiveRunReplays(env, stored, Start(stored), keys);
  }

  /** Every label below the cursor is below the action count. */
  ghost predicate InRange(env: Env, s: Review) {
    forall j :: 0 <= j < s.i && j < |s.labels| ==> s.labels[j] as int < env.numActions
  }

  /** When every allowed action's code is below the action count, each
      iteration keeps the labels below the cursor in range. */
  lemma StepKeepsInRange(env: Env, s: Review, key: Key)
    requires Wf(s) && s.i < |s.labels| && s.i < |env.frames| && InRange(env, s)
    requires forall a :: Allowed(a, env.numActions) ==> env.code(a) as int < env.numActions
    ensures InRange(env, Step(env, s, key))
  {
    assert Allowed(Scan, env.numActions);
    assert Allowed(LabelFor(key, env.numActions), env.numActions);
  }

  /** When every allowed action's code is below the action count, every
      label the loop has passed over is in range, whatever was stored. */
  lemma {:induction false} RunKeepsInRange(env: Env, s: Review, keys: seq<Key>)
    requires Wf(s) && InRange(env, s)
    requires forall a :: Allowed(a, env.numActions) ==> env.code(a) as int < env.numActions
    ensures InRange(env, Run(env, s, keys))
    decreases |keys|
  {
    if !(s.i >= |s.labels| || s.i >= |env.frames| || keys == [] || keys[0] == Escape) {
      StepKeepsInRange(env, s, keys[0]);
      RunKeepsInRange(env, Step(env, s, keys[0]), keys[1..]);
    }
  }

  /** Every row below the cursor is that image's transformed row. */
  ghost predicate RowsCommitted(env: Env, s: Review) {
    forall j :: 0 <= j < s.i && j < |s.data| && j < |env.frames| ==> s.data[j] == env.frames[j]
  }

  /** The loop keeps every row below the cursor committed. */
  lemma {:induction false} RunCommitsRows(env: Env, s: Review, keys: seq<Key>)
    requires Wf(s) && RowsCommitted(env, s)
    ensures RowsCommitted(env, Run(env, s, keys))
    decreases |keys|
  {
    if !(s.i >= |s.labels| || s.i >= |env.frames| || keys == [] || keys[0] == Escape) {
      RunCommitsRows(env, Step(env, s, keys[0]), keys[1..]);
    }
  }

  /** Reference for what a review writes from the cursor on, given the labels
      still ahead of it, the edit flag and keys that never quit or move back:
      the edit key flips the flag, every other key writes one label (the key
      rule's with edit on, the replayed stored code with edit off), until the
      labels ahead run out. */
  function Written(env: Env, ahead: seq<int8>, edit: bool, keys: seq<Key>): (w: seq<int8>)
    ensures |w| <= |ahead|
    decreases |keys|
  {
    if ahead == [] || keys == [] then []
    else if keys[0] == KeyE then Written(env, ahead, !edit, keys[1..])
    else
      [if edit then env.code(LabelFor(keys[0], env.numActions)) else Coerce(env, ahead[0])]
      + Written(env, ahead[1..], edit, keys[1..])
  }

  /** When every label has its image and the keys never quit or move back, the
      loop leaves the labels behind the cursor alone, replaces the next ones
      with exactly what Written says, and leaves the rest as stored. */
  lemma {:induction false} RunWrites(env: Env, s: Review, keys: seq<Key>)
    requires Wf(s) && |s.labels| <= |env.frames|
    requires forall t :: 0 <= t < |keys| ==> keys[t] != Escape && keys[t] != BackSpace
    ensures Writes(env, s, keys, Run(env, s, keys))
    decreases |keys|
  {
    if s.i < |s.labels| && keys != [] {
      var rest := keys[1..];
      assert keys[0] == keys[0 + 0];
      assert forall t :: 0 <= t < |rest| ==> rest[t] == keys[t + 1];
      var r := Step(env, s, keys[0]);
      assert Run(env, s, keys) == Run(env, r, rest);
      RunWrites(env, r, rest);
      var ahead := s.labels[s.i..];
      if keys[0] == KeyE {
        assert r == s.(edit := !s.edit);
        assert Written(env, ahead, s.edit, keys) == Written(env, ahead, !s.edit, rest);
      } else {
        var written := if s.edit then env.code(LabelFor(keys[0], env.numActions)) else Coerce(env, ahead[0]);
        assert Written(env, ahead, s.edit, keys) == [written] + Written(env, ahead[1..], s.edit, rest);
        assert r == Review(s.i + 1, s.labels[s.i := written], r.data, s.edit);
        WritesAfterCommit(env, s, keys, written, r, Run(env, r, rest));
      }
    } else {
      assert s.labels[..s.i] + [] + s.labels[s.i..] == s.labels;
    }
  }

  /** `fin` is where the keys lead from `s` in the sense of RunWrites: the
      cursor has passed the written labels and the label array is `s`'s with
      them in place. */
  ghost predicate Writes(env: Env, s: Review, keys: seq<Key>, fin: Review) {
    Wf(s)
    && var w := Written(env, s.labels[s.i..], s.edit, keys);
    fin.i == s.i + |w| && fin.labels == Overwrite(s.labels, s.i, w)
  }

  /** A commit of `x` at the cursor followed by the rest of the keys writes
      `[x]` followed by what the rest writes. */
  lemma WritesAfterCommit(env: Env, s: Review, keys: seq<Key>, x: int8, r: Review, fin: Review)
    requires Wf(s) && Wf(r) && s.i < |s.labels| && keys != []
    requires r.i == s.i + 1 && r.labels == s.labels[s.i := x] && r.edit == s.edit
    requires Written(env, s.labels[s.i..], s.edit, keys) == [x] + Written(env, s.labels[s.i..][1..], s.edit, keys[1..])
    requires Writes(env, r, keys[1..], fin)
    ensures Writes(env, s, keys, fin)
  {
    TailAfterWrite(s.labels, s.i, x);
    OverwriteAfterWrite(s.labels, s.i, x, Written(env, s.labels[s.i..][1..], s.edit, keys[1..]));
  }

  /** With edit on and never toggled, a review writes the key rule's code for
      each key, over as many labels as there are keys. */
  lemma EditRunUsesRule(env: Env, s: Review, keys: seq<Key>)
    requires Wf(s) && |s.labels| <= |env.frames| && s.edit && s.i + |keys| <= |s.labels|
    requires forall t :: 0 <= t < |keys| ==> keys[t] !in {Escape, BackSpace, KeyE}
    ensures var fin := Run(env, s, keys);
      fin.i == s.i + |keys|
      && (forall j :: 0 <= j < s.i ==> fin.labels[j] == s.labels[j])
      && (forall t :: 0 <= t < |keys| ==>
            fin.labels[s.i + t] == env.code(LabelFor(keys[t], env.numActions)))
  {
    RunWrites(env, s, keys);
    EditWritesRule(env, s.labels[s.i..], keys);
  }

  /** Written with edit on and no toggle is the key rule's code, key by key. */
  lemma {:induction false} EditWritesRule(env: Env, ahead: seq<int8>, keys: seq<Key>)
    requires |keys| <= |ahead|
    requires forall t :: 0 <= t < |keys| ==> keys[t] != KeyE
    ensures var w := Written(env, ahead, true, keys);
      |w| == |keys| && forall t :: 0 <= t < |keys| ==> w[t] == env.code(LabelFor(keys[t], env.numActions))
    decreases |keys|
  {
    if keys != [] {
      assert keys[0] == keys[0 + 0];
      var rest := keys[1..];
      assert forall t :: 0 <= t < |rest| ==> rest[t] == keys[t + 1];
      EditWritesRule(env, ahead[1..], rest);
    }
  }

  // ----- scenario -----

  /** A stored code equal to the action count, replayed with edit off by a
      space key, is saved as SCAN. */
  lemma OutOfRangeReplaysAsScan(env: Env, stored: seq<int8>)
    requires |stored| >= 1 && |env.frames| >= 1 && stored[0] as int == env.numActions
    ensures var fin := Run(env, Start(stored), [Space]);
      fin.i == 1 && fin.labels[0] == env.code(Scan) && fin.data[0] == env.frames[0]
  {
    var s1 := Step(env, Start(stored), Space);
    assert [Space][1..] == [];
    assert Run(env, Start(stored), [Space]) == Run(env, s1, []) == s1;
  }
}
