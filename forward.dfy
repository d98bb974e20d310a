/// The forward annotation loop as a state machine over key presses, and what
/// it promises: cursor bounds, what each command touches, and that the saved
/// rows are exactly the kept committed ones, in order.
module Forward {
  import opened Labels
  import opened Rows
  import opened Session

  /** One point of the loop: the cursor, the preallocated label and data
      arrays, and the keep mask (one flag per image). */
  datatype Pass = Pass(i: nat, labels: seq<int8>, data: seq<Row>, keep: seq<bool>)

  /** The arrays have one slot per image and the cursor stays within them. */
  predicate Wf(env: Env, s: Pass) {
    |s.labels| == |env.frames| && |s.data| == |env.frames| && |s.keep| == |env.frames|
    && s.i <= |env.frames|
  }

  /** The state before the first key: cursor 0, every image kept. The label
      and data slots are left unspecified by the source; they hold zeros and
      empty rows here and are never read before being written. */
  function Start(n: nat): (s: Pass)
    ensures s.i == 0 && |s.labels| == |s.data| == |s.keep| == n
    ensures forall j :: 0 <= j < n ==> s.keep[j]
  {
    Pass(0, seq(n, _ => 0), seq(n, _ => []), seq(n, _ => true))
  }

  /** Write a label and the current image's row at the cursor, then advance. */
  function Commit(env: Env, s: Pass, written: int8): (r: Pass)
    requires Wf(env, s) && s.i < |env.frames|
    ensures Wf(env, r) && r.i == s.i + 1 && r.keep == s.keep
    ensures r.labels[s.i] == written && r.data[s.i] == env.frames[s.i]
    ensures forall j :: 0 <= j < |env.frames| && j != s.i ==>
      r.labels[j] == s.labels[j] && r.data[j] == s.data[j]
  {
    Pass(s.i + 1, s.labels[s.i := written], s.data[s.i := env.frames[s.i]], s.keep)
  }

  /** One iteration of the loop body for a key. Escape leaves the state as it
      is: Run stops on it before calling Step. */
  function Step(env: Env, s: Pass, key: Key): (r: Pass)
    requires Wf(env, s) && s.i < |env.frames|
    ensures Wf(env, r)
  {
    match key
    case Escape => s
    case BackSpace => s.(i := Back(s.i))
    case KeyK => Commit(env, s.(keep := s.keep[s.i := false]), env.code(Scan))
    case KeyR => s.(keep := s.keep[s.i := true], i := Back(s.i))
    case _ => Commit(env, s, env.code(LabelFor(key, env.numActions)))
  }

  /** The loop: one key per iteration, stopping when the cursor reaches the
      image count, when the keys run out, or at Escape. */
  function Run(env: Env, s: Pass, keys: seq<Key>): (r: Pass)
    requires Wf(env, s)
    ensures Wf(env, r)
    decreases |keys|
  {
    if s.i >= |env.frames| || keys == [] || keys[0] == Escape then s
    else Run(env, Step(env, s, keys[0]), keys[1..])
  }

  /** One unfolding of Run at a key that does not stop it. */
  lemma RunUnfolds(env: Env, s: Pass, keys: seq<Key>, t: nat)
    requires Wf(env, s) && s.i < |env.frames| && t < |keys| && keys[t] != Escape
    ensures Run(env, s, keys[t..]) == Run(env, Step(env, s, keys[t]), keys[t + 1..])
  {
    assert keys[t..][0] == keys[t] && keys[t..][1..] == keys[t + 1..];
  }

  /** The labels left after truncating to the cursor and applying the mask. */
  function OutputLabels(env: Env, s: Pass): (r: seq<int8>)
    requires Wf(env, s)
    ensures |r| == Count(s.keep[..s.i]) <= s.i
  {
    Kept(s.labels[..s.i], s.keep[..s.i])
  }

  /** The data rows left after truncating to the cursor and applying the mask. */
  function OutputData(env: Env, s: Pass): (r: seq<Row>)
    requires Wf(env, s)
    ensures |r| == Count(s.keep[..s.i]) <= s.i
  {
    Kept(s.data[..s.i], s.keep[..s.i])
  }

  /** Every slot below the cursor holds a committed row and a producible code. */
  ghost predicate Committed(env: Env, s: Pass)
    requires Wf(env, s)
  {
    forall j :: 0 <= j < s.i ==> s.data[j] == env.frames[j] && Producible(env, s.labels[j])
  }

  // ----- one command at a time -----

  /** Back moves only the cursor, to max(i-1, 0). */
  lemma BackMovesOnlyCursor(env: Env, s: Pass)
    requires Wf(env, s) && s.i < |env.frames|
    ensures var r := Step(env, s, BackSpace);
      r.i == (if s.i > 0 then s.i - 1 else 0)
      && r.labels == s.labels && r.data == s.data && r.keep == s.keep
  {
  }

  /** Kill clears the keep flag at the cursor, commits SCAN and the row there,
      and advances by exactly one. */
  lemma KillCommitsScan(env: Env, s: Pass)
    requires Wf(env, s) && s.i < |env.frames|
    ensures var r := Step(env, s, KeyK);
      r.i == s.i + 1 && !r.keep[s.i] && r.labels[s.i] == env.code(Scan)
      && r.data[s.i] == env.frames[s.i]
      && forall j :: 0 <= j < |env.frames| && j != s.i ==>
           r.labels[j] == s.labels[j] && r.data[j] == s.data[j] && r.keep[j] == s.keep[j]
  {
  }

  /** Restore sets the keep flag at the cursor, steps back, and writes no
      label or row. */
  lemma RestoreWritesNoRow(env: Env, s: Pass)
    requires Wf(env, s) && s.i < |env.frames|
    ensures var r := Step(env, s, KeyR);
      r.i == (if s.i > 0 then s.i - 1 else 0) && r.keep[s.i]
      && r.labels == s.labels && r.data == s.data
      && forall j :: 0 <= j < |env.frames| && j != s.i ==> r.keep[j] == s.keep[j]
  {
  }

  /** A label key writes the rule's label and the row at the cursor only,
      leaves the mask alone, and advances by one. */
  lemma LabelKeyCommits(env: Env, s: Pass, key: Key)
    requires Wf(env, s) && s.i < |env.frames|
    requires key !in {Escape, BackSpace, KeyK, KeyR}
    ensures var r := Step(env, s, key);
      r.i == s.i + 1 && r.keep == s.keep
      && r.labels[s.i] == env.code(LabelFor(key, env.numActions))
      && r.data[s.i] == env.frames[s.i]
      && forall j :: 0 <= j < |env.frames| && j != s.i ==>
           r.labels[j] == s.labels[j] && r.data[j] == s.data[j]
  {
  }

  // ----- the whole loop -----

  /** Each iteration keeps every slot below the cursor committed. */
  lemma StepKeepsCommitted(env: Env, s: Pass, key: Key)
    requires Wf(env, s) && s.i < |env.frames| && Committed(env, s)
    ensures Committed(env, Step(env, s, key))
  {
    var r := Step(env, s, key);
    if key == KeyK {
      assert Allowed(Scan, env.numActions);
    } else if key !in {Escape, BackSpace, KeyR} {
      assert Allowed(LabelFor(key, env.numActions), env.numActions);
    }
    forall j | 0 <= j < r.i
      ensures r.data[j] == env.frames[j] && Producible(env, r.labels[j])
    {
      if j < s.i {
        assert r.labels[j] == s.labels[j];
      }
    }
  }

  /** The loop keeps every slot below the cursor committed. */
  lemma {:induction false} RunKeepsCommitted(env: Env, s: Pass, keys: seq<Key>)
    requires Wf(env, s) && Committed(env, s)
    ensures Committed(env, Run(env, s, keys))
    decreases |keys|
  {
    if !(s.i >= |env.frames| || keys == [] || keys[0] == Escape) {
      StepKeepsCommitted(env, s, keys[0]);
      RunKeepsCommitted(env, Step(env, s, keys[0]), keys[1..]);
    }
  }

  /** Everything after a quit is ignored. */
  lemma {:induction false} QuitIgnoresLaterKeys(
    env: Env, s: Pass, before: seq<Key>, after1: seq<Key>, after2: seq<Key>)
    requires Wf(env, s)
    ensures Run(env, s, before + [Escape] + after1) == Run(env, s, before + [Escape] + after2)
    decreases |before|
  {
    var k1, k2 := before + [Escape] + after1, before + [Escape] + after2;
    if before == [] {
      assert k1[0] == Escape && k2[0] == Escape;
    } else if s.i < |env.frames| && before[0] != Escape {
      assert k1[0] == k2[0] == before[0];
      assert k1[1..] == before[1..] + [Escape] + after1;
      assert k2[1..] == before[1..] + [Escape] + after2;
      QuitIgnoresLaterKeys(env, Step(env, s, before[0]), before[1..], after1, after2);
    } else {
      assert k1[0] == k2[0] == before[0];
    }
  }

  /** What the loop leaves to save: labels and rows of equal length, one per
      index below the final cursor whose keep flag is set, in index order;
      every row is that image's transformed row and every label one the
      key-to-label rule can produce. No killed index reaches the output. */
  lemma {:induction false} OutputIsKeptCommitted(env: Env, keys: seq<Key>)
    ensures var fin := Run(env, Start(|env.frames|), keys);
      var idx := KeptIndices(fin.keep[..fin.i]);
      fin.i <= |env.frames|
      && |OutputLabels(env, fin)| == |OutputData(env, fin)| == |idx| == Count(fin.keep[..fin.i])
      && OutputData(env, fin) == Kept(env.frames[..fin.i], fin.keep[..fin.i])
      && forall k :: 0 <= k < |idx| ==>
           idx[k] < fin.i && fin.keep[idx[k]]
           && OutputData(env, fin)[k] == env.frames[idx[k]]
           && OutputLabels(env, fin)[k] == fin.labels[idx[k]]
           && Producible(env, OutputLabels(env, fin)[k])
  {
    var n := |env.frames|;
    var fin := Run(env, Start(n), keys);
    RunKeepsCommitted(env, Start(n), keys);
    var mask := fin.keep[..fin.i];
    var idx := KeptIndices(mask);
    KeptAgrees(fin.data[..fin.i], env.frames[..fin.i], mask);
    forall k | 0 <= k < |idx|
      ensures idx[k] < fin.i && fin.keep[idx[k]]
      ensures OutputData(env, fin)[k] == env.frames[idx[k]]
      ensures OutputLabels(env, fin)[k] == fin.labels[idx[k]]
      ensures Producible(env, OutputLabels(env, fin)[k])
    {
      KeptAt(fin.data[..fin.i], mask, k);
      KeptAt(fin.labels[..fin.i], mask, k);
    }
  }

  /** Every index below the final cursor whose flag is set is saved. */
  lemma KeptIndexIsSaved(env: Env, keys: seq<Key>, j: nat)
    requires var fin := Run(env, Start(|env.frames|), keys); j < fin.i && fin.keep[j]
    ensures var fin := Run(env, Start(|env.frames|), keys);
      j in KeptIndices(fin.keep[..fin.i])
  {
    var fin := Run(env, Start(|env.frames|), keys);
    KeptIndicesComplete(fin.keep[..fin.i], j);
  }

  /** Two states that agree on the cursor, the mask and every slot below the
      cursor. */
  ghost predicate AgreeBelow(env: Env, s1: Pass, s2: Pass)
    requires Wf(env, s1) && Wf(env, s2)
  {
    s1.i == s2.i && s1.keep == s2.keep
    && forall j :: 0 <= j < s1.i ==> s1.labels[j] == s2.labels[j] && s1.data[j] == s2.data[j]
  }

  /** Runs from states that agree below the cursor stay in agreement. */
  lemma {:induction false} RunAgrees(env: Env, s1: Pass, s2: Pass, keys: seq<Key>)
    requires Wf(env, s1) && Wf(env, s2) && AgreeBelow(env, s1, s2)
    ensures AgreeBelow(env, Run(env, s1, keys), Run(env, s2, keys))
    decreases |keys|
  {
    if !(s1.i >= |env.frames| || keys == [] || keys[0] == Escape) {
      RunAgrees(env, Step(env, s1, keys[0]), Step(env, s2, keys[0]), keys[1..]);
    }
  }

  /** The preallocated slots start with unspecified contents; whatever they
      hold never reaches the output. */
  lemma InitialSlotsUnobservable(env: Env, labels0: seq<int8>, data0: seq<Row>, keys: seq<Key>)
    requires |labels0| == |data0| == |env.frames|
    ensures var n := |env.frames|;
      var fin0 := Run(env, Pass(0, labels0, data0, seq(n, _ => true)), keys);
      var fin := Run(env, Start(n), keys);
      OutputLabels(env, fin0) == OutputLabels(env, fin) && OutputData(env, fin0) == OutputData(env, fin)
  {
    var n := |env.frames|;
    var s0 := Pass(0, labels0, data0, seq(n, _ => true));
    RunAgrees(env, s0, Start(n), keys);
    var fin0, fin := Run(env, s0, keys), Run(env, Start(n), keys);
    assert fin0.labels[..fin0.i] == fin.labels[..fin.i];
    assert fin0.data[..fin0.i] == fin.data[..fin.i];
  }

  /** The code a key that neither quits nor moves back commits: SCAN for
      kill, otherwise the key-to-label rule's action. */
  function KeyCode(env: Env, key: Key): int8 {
    if key == KeyK then env.code(Scan) else env.code(LabelFor(key, env.numActions))
  }

  /** Keys that commit one image each: no quit, back or restore. */
  predicate Committing(keys: seq<Key>) {
    forall t :: 0 <= t < |keys| ==> keys[t] !in {Escape, BackSpace, KeyR}
  }

  /** A run of committing keys, with an image for each, follows the keys. */
  lemma {:induction false} RunFollowsKeys(env: Env, s: Pass, keys: seq<Key>)
    requires Wf(env, s) && s.i + |keys| <= |env.frames| && Committing(keys)
    ensures Follows(env, s, keys, Run(env, s, keys))
    decreases |keys|
  {
    if keys != [] {
      var rest := keys[1..];
      assert keys[0] == keys[0 + 0];
      assert forall t :: 0 <= t < |rest| ==> rest[t] == keys[t + 1];
      var r := Step(env, s, keys[0]);
      CommittingStep(env, s, keys[0]);
      RunFollowsKeys(env, r, rest);
      assert Run(env, s, keys) == Run(env, r, rest);
      FollowsCons(env, s, keys, r, Run(env, r, rest));
    }
  }

  /** `fin` is where committing `keys` from `s` leads: the t-th key's code and
      the t-th image's row at the t-th slot from the cursor, the keep flag
      cleared exactly where the key is kill, nothing below the cursor touched. */
  ghost predicate Follows(env: Env, s: Pass, keys: seq<Key>, fin: Pass) {
    Wf(env, s) && Wf(env, fin) && s.i + |keys| <= |env.frames|
    && fin.i == s.i + |keys|
    && (forall t :: 0 <= t < |keys| ==>
          fin.labels[s.i + t] == KeyCode(env, keys[t])
          && fin.data[s.i + t] == env.frames[s.i + t]
          && fin.keep[s.i + t] == (keys[t] != KeyK && s.keep[s.i + t]))
    && (forall j :: 0 <= j < s.i ==>
          fin.labels[j] == s.labels[j] && fin.data[j] == s.data[j] && fin.keep[j] == s.keep[j])
  }

  /** One committing key followed by the rest is following all of them. */
  lemma FollowsCons(env: Env, s: Pass, keys: seq<Key>, r: Pass, fin: Pass)
    requires Wf(env, s) && Wf(env, r) && keys != [] && s.i < |env.frames|
    requires r.i == s.i + 1 && r.labels[s.i] == KeyCode(env, keys[0]) && r.data[s.i] == env.frames[s.i]
    requires r.keep[s.i] == (keys[0] != KeyK && s.keep[s.i])
    requires forall j :: 0 <= j < |env.frames| && j != s.i ==>
      r.labels[j] == s.labels[j] && r.data[j] == s.data[j] && r.keep[j] == s.keep[j]
    requires Follows(env, r, keys[1..], fin)
    ensures Follows(env, s, keys, fin)
  {
    var rest := keys[1..];
    forall t | 0 <= t < |keys|
      ensures fin.labels[s.i + t] == KeyCode(env, keys[t])
      ensures fin.data[s.i + t] == env.frames[s.i + t]
      ensures fin.keep[s.i + t] == (keys[t] != KeyK && s.keep[s.i + t])
    {
      if t == 0 {
        assert s.i < r.i;
      } else {
        assert rest[t - 1] == keys[t] && r.i + (t - 1) == s.i + t;
      }
    }
    forall j | 0 <= j < s.i
      ensures fin.labels[j] == s.labels[j] && fin.data[j] == s.data[j] && fin.keep[j] == s.keep[j]
    {
      assert j < r.i;
    }
  }

  /** One committing key: its code and the image's row at the cursor, the
      keep flag cleared for kill, one step forward, nothing else touched. */
  lemma CommittingStep(env: Env, s: Pass, key: Key)
    requires Wf(env, s) && s.i < |env.frames| && key !in {Escape, BackSpace, KeyR}
    ensures var r := Step(env, s, key);
      r.i == s.i + 1 && r.labels[s.i] == KeyCode(env, key) && r.data[s.i] == env.frames[s.i]
      && r.keep[s.i] == (key != KeyK && s.keep[s.i])
      && forall j :: 0 <= j < |env.frames| && j != s.i ==>
           r.labels[j] == s.labels[j] && r.data[j] == s.data[j] && r.keep[j] == s.keep[j]
  {
  }

  /** The codes a run of committing keys saves: one per key other than kill,
      in key order. */
  function Typed(env: Env, keys: seq<Key>): (r: seq<int8>)
    ensures |r| <= |keys|
  {
    if keys == [] then []
    else
      var last := keys[|keys| - 1];
      Typed(env, keys[..|keys| - 1]) + (if last == KeyK then [] else [KeyCode(env, last)])
  }

  /** The keep mask a run of committing keys leaves: cleared exactly at kills. */
  function KillMask(keys: seq<Key>): (m: seq<bool>)
    ensures |m| == |keys| && forall t :: 0 <= t < |keys| ==> m[t] == (keys[t] != KeyK)
  {
    seq(|keys|, t requires 0 <= t < |keys| => keys[t] != KeyK)
  }

  /** Mask selection over slots written by committing keys gives Typed. */
  lemma {:induction false} KeptIsTyped(env: Env, ls: seq<int8>, keys: seq<Key>)
    requires |ls| == |keys| && forall t :: 0 <= t < |keys| ==> ls[t] == KeyCode(env, keys[t])
    ensures Kept(ls, KillMask(keys)) == Typed(env, keys)
  {
    if keys != [] {
      var m := |keys| - 1;
      assert KillMask(keys)[..m] == KillMask(keys[..m]);
      KeptIsTyped(env, ls[..m], keys[..m]);
    }
  }

  /** From the start, committing keys for a prefix of the images save exactly
      the non-kill keys' codes, in order, with the rows of the images they
      were typed on. */
  lemma TypedRunSaves(env: Env, keys: seq<Key>)
    requires |keys| <= |env.frames| && Committing(keys)
    ensures var fin := Run(env, Start(|env.frames|), keys);
      fin.i == |keys|
      && OutputLabels(env, fin) == Typed(env, keys)
      && OutputData(env, fin) == Kept(env.frames[..|keys|], KillMask(keys))
  {
    RunFollowsKeys(env, Start(|env.frames|), keys);
    FollowedFromStartSaves(env, keys, Run(env, Start(|env.frames|), keys));
  }

  /** The output of any state reached by following committing keys from
      the start. */
  lemma FollowedFromStartSaves(env: Env, keys: seq<Key>, fin: Pass)
    requires Follows(env, Start(|env.frames|), keys, fin)
    ensures fin.i == |keys|
    ensures OutputLabels(env, fin) == Typed(env, keys)
    ensures OutputData(env, fin) == Kept(env.frames[..|keys|], KillMask(keys))
  {
    var s0 := Start(|env.frames|);
    var n := |keys|;
    forall t | 0 <= t < n
      ensures fin.keep[t] == KillMask(keys)[t]
      ensures fin.data[t] == env.frames[t]
      ensures fin.labels[t] == KeyCode(env, keys[t])
    {
      assert s0.keep[0 + t] && fin.keep[0 + t] == fin.keep[t];
    }
    assert fin.keep[..n] == KillMask(keys);
    assert fin.data[..n] == env.frames[..n];
    KeptIsTyped(env, fin.labels[..n], keys);
  }

  // ----- scenarios -----

  /** Two actions, three images, keys [space, Return, Escape]: two rows are
      saved, labelled SCAN and TARGET. */
  lemma ScanTargetQuit(env: Env)
    requires |env.frames| == 3 && env.numActions == 2
    ensures var fin := Run(env, Start(3), [Space, Return, Escape]);
      fin.i == 2
      && OutputLabels(env, fin) == [env.code(Scan), env.code(Target)]
      && OutputData(env, fin) == env.frames[..2]
  {
    var keys := [Space, Return, Escape];
    var s0 := Start(3);
    var s1 := Step(env, s0, Space);
    var s2 := Step(env, s1, Return);
    assert Run(env, s0, keys) == Run(env, s1, keys[1..]);
    assert keys[1..][1..] == [Escape];
    assert Run(env, s1, keys[1..]) == Run(env, s2, [Escape]) == s2;
    assert s2.labels[..2] == [env.code(Scan), env.code(Target)];
    KeptAll(s2.labels[..2], s2.keep[..2]);
    KeptAll(s2.data[..2], s2.keep[..2]);
  }

  /** Kill on image 0 followed at once by restore does not undo the kill:
      restore marks the image under the cursor (image 1) and steps back, so
      recommitting image 0 still leaves it dropped. */
  lemma KillThenRestoreStillDrops(env: Env)
    requires |env.frames| >= 2
    ensures var fin := Run(env, Start(|env.frames|), [KeyK, KeyR, Space]);
      fin.i == 1 && !fin.keep[0] && OutputLabels(env, fin) == [] && OutputData(env, fin) == []
  {
    var n := |env.frames|;
    var keys := [KeyK, KeyR, Space];
    var s0 := Start(n);
    var s1 := Step(env, s0, KeyK);
    var s2 := Step(env, s1, KeyR);
    var s3 := Step(env, s2, Space);
    assert keys[1..] == [KeyR, Space] && keys[1..][1..] == [Space] && [Space][1..] == [];
    assert Run(env, s0, keys) == Run(env, s1, [KeyR, Space]) == Run(env, s2, [Space]) == s3;
    assert s3.keep[..1] == [false];
  }

  /** Kill on image 0, back, restore, then SCAN: image 0 is saved with SCAN. */
  lemma BackRestoreUndoesKill(env: Env)
    requires |env.frames| >= 2
    ensures var fin := Run(env, Start(|env.frames|), [KeyK, BackSpace, KeyR, Space]);
      OutputLabels(env, fin) == [env.code(Scan)] && OutputData(env, fin) == [env.frames[0]]
  {
    var n := |env.frames|;
    var keys := [KeyK, BackSpace, KeyR, Space];
    var s0 := Start(n);
    var s1 := Step(env, s0, KeyK);
    var s2 := Step(env, s1, BackSpace);
    var s3 := Step(env, s2, KeyR);
    var s4 := Step(env, s3, Space);
    assert keys[1..] == [BackSpace, KeyR, Space] && keys[1..][1..] == [KeyR, Space];
    assert [KeyR, Space][1..] == [Space] && [Space][1..] == [];
    assert Run(env, s0, keys) == Run(env, s1, [BackSpace, KeyR, Space]);
    assert Run(env, s1, [BackSpace, KeyR, Space]) == Run(env, s2, [KeyR, Space]);
    assert Run(env, s2, [KeyR, Space]) == Run(env, s3, [Space]) == s4;
    assert s4.i == 1 && s4.keep[..1] == [true];
    assert s4.labels[..1] == [env.code(Scan)] && s4.data[..1] == [env.frames[0]];
  }
}
