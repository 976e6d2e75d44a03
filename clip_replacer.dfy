/**
 * The animator clip replacer: swaps the clips an animator controller plays for
 * same-named clips of a new model file, where "same name" means equal after
 * stripping the old prefix from the controller's clip and the new prefix from
 * the model's clip.
 */
module ClipReplace {
  import opened Wrappers
  import opened Strings
  import opened Animator

  /** A clip's name with `prefix` removed when the name starts with it. */
  function BaseName(c: Clip, prefix: string): string {
    StripPrefix(c.name, prefix)
  }

  /** No clip asset after index `i` has base name `key`. */
  ghost predicate NoLaterClip(assets: seq<Asset>, prefix: string, i: nat, key: string) {
    forall j :: i < j < |assets| && assets[j].ClipAsset? ==> BaseName(assets[j].clip, prefix) != key
  }

  /**
   * The new-clip map of a model file's assets: keyed by every clip's base name, each
   * key mapped to the LAST clip that has it.
   */
  ghost predicate IsNewClipMap(assets: seq<Asset>, prefix: string, newClips: map<string, Clip>) {
    && (forall key :: key in newClips <==>
          exists i :: 0 <= i < |assets| && assets[i].ClipAsset? && BaseName(assets[i].clip, prefix) == key)
    && (forall key :: key in newClips ==>
          exists i :: 0 <= i < |assets| && assets[i] == ClipAsset(newClips[key]) &&
                      BaseName(newClips[key], prefix) == key && NoLaterClip(assets, prefix, i, key))
  }

  /** One loop step: a clip asset is stored under its base name, overwriting what was there. */
  function Store(newClips: map<string, Clip>, asset: Asset, prefix: string): map<string, Clip> {
    if asset.ClipAsset? then newClips[BaseName(asset.clip, prefix) := asset.clip] else newClips
  }

  lemma StoreKeys(assets: seq<Asset>, prefix: string, newClips: map<string, Clip>)
    requires |assets| > 0 && IsNewClipMap(assets[..|assets| - 1], prefix, newClips)
    ensures var stored := Store(newClips, assets[|assets| - 1], prefix);
            forall key :: key in stored <==>
              exists i :: 0 <= i < |assets| && assets[i].ClipAsset? && BaseName(assets[i].clip, prefix) == key
  {
    var n := |assets| - 1;
    var before := assets[..n];
    forall key | exists i :: 0 <= i < |assets| && assets[i].ClipAsset? && BaseName(assets[i].clip, prefix) == key
      ensures key in Store(newClips, assets[n], prefix)
    {
      var i :| 0 <= i < |assets| && assets[i].ClipAsset? && BaseName(assets[i].clip, prefix) == key;
      if i < n {
        assert before[i] == assets[i];
      }
    }
    forall key | key in Store(newClips, assets[n], prefix)
      ensures exists i :: 0 <= i < |assets| && assets[i].ClipAsset? && BaseName(assets[i].clip, prefix) == key
    {
      if !(assets[n].ClipAsset? && key == BaseName(assets[n].clip, prefix)) {
        var i :| 0 <= i < n && before[i].ClipAsset? && BaseName(before[i].clip, prefix) == key;
        assert assets[i] == before[i];
      }
    }
  }

  lemma StoreValues(assets: seq<Asset>, prefix: string, newClips: map<string, Clip>)
    requires |assets| > 0 && IsNewClipMap(assets[..|assets| - 1], prefix, newClips)
    ensures var stored := Store(newClips, assets[|assets| - 1], prefix);
            forall key :: key in stored ==>
              exists i :: 0 <= i < |assets| && assets[i] == ClipAsset(stored[key]) &&
                          BaseName(stored[key], prefix) == key && NoLaterClip(assets, prefix, i, key)
  {
    var n := |assets| - 1;
    var before := assets[..n];
    var stored := Store(newClips, assets[n], prefix);
    forall key | key in stored
      ensures exists i :: 0 <= i < |assets| && assets[i] == ClipAsset(stored[key]) &&
                          BaseName(stored[key], prefix) == key && NoLaterClip(assets, prefix, i, key)
    {
      if assets[n].ClipAsset? && key == BaseName(assets[n].clip, prefix) {
        assert assets[n] == ClipAsset(stored[key]) && NoLaterClip(assets, prefix, n, key);
      } else {
        var i :| 0 <= i < n && before[i] == ClipAsset(newClips[key]) &&
                 BaseName(newClips[key], prefix) == key && NoLaterClip(before, prefix, i, key);
        assert assets[i] == before[i];
        assert stored[key] == newClips[key];
        assert NoLaterClip(assets, prefix, i, key);
      }
    }
  }

  lemma StoreExtends(assets: seq<Asset>, prefix: string, newClips: map<string, Clip>)
    requires |assets| > 0 && IsNewClipMap(assets[..|assets| - 1], prefix, newClips)
    ensures IsNewClipMap(assets, prefix, Store(newClips, assets[|assets| - 1], prefix))
  {
    StoreKeys(assets, prefix, newClips);
    StoreValues(assets, prefix, newClips);
  }

  /** Builds the new-clip map; a later clip with the same base name overwrites an earlier one. */
  method BuildNewClips(assets: seq<Asset>, newPrefix: string) returns (newClips: map<string, Clip>)
    ensures IsNewClipMap(assets, newPrefix, newClips)
  {
    newClips := map[];
    for n := 0 to |assets|
      invariant IsNewClipMap(assets[..n], newPrefix, newClips)
    {
      var upTo := assets[..n + 1];
      assert upTo[..n] == assets[..n] && upTo[n] == assets[n];
      StoreExtends(upTo, newPrefix, newClips);
      if assets[n].ClipAsset? {
        newClips := newClips[BaseName(assets[n].clip, newPrefix) := assets[n].clip];
      }
    }
    assert assets[..|assets|] == assets;
  }

  lemma LastClipUnique(assets: seq<Asset>, prefix: string, key: string, i: nat, j: nat)
    requires i < |assets| && assets[i].ClipAsset? && BaseName(assets[i].clip, prefix) == key
    requires j < |assets| && assets[j].ClipAsset? && BaseName(assets[j].clip, prefix) == key
    requires NoLaterClip(assets, prefix, i, key) && NoLaterClip(assets, prefix, j, key)
    ensures i == j
  {
  }

  /** The new-clip map is determined by the model file's assets: any two that satisfy IsNewClipMap agree. */
  lemma NewClipMapUnique(assets: seq<Asset>, prefix: string, m1: map<string, Clip>, m2: map<string, Clip>)
    requires IsNewClipMap(assets, prefix, m1) && IsNewClipMap(assets, prefix, m2)
    ensures m1 == m2
  {
    forall key
      ensures key in m1 <==> key in m2
    {
    }
    forall key | key in m1
      ensures m1[key] == m2[key]
    {
      var i :| 0 <= i < |assets| && assets[i] == ClipAsset(m1[key]) &&
               BaseName(m1[key], prefix) == key && NoLaterClip(assets, prefix, i, key);
      var j :| 0 <= j < |assets| && assets[j] == ClipAsset(m2[key]) &&
               BaseName(m2[key], prefix) == key && NoLaterClip(assets, prefix, j, key);
      LastClipUnique(assets, prefix, key, i, j);
    }
  }

  /**
   * The clip a slot holds after replacement: the mapped clip when the slot's clip,
   * stripped of the old prefix, is a key of the new-clip map, and the same clip otherwise.
   */
  function Swap(c: Clip, newClips: map<string, Clip>, oldPrefix: string): Clip {
    if BaseName(c, oldPrefix) in newClips then newClips[BaseName(c, oldPrefix)] else c
  }

  function SwapAll(cs: seq<Clip>, newClips: map<string, Clip>, oldPrefix: string): (r: seq<Clip>)
    ensures |r| == |cs|
  {
    seq(|cs|, i requires 0 <= i < |cs| => Swap(cs[i], newClips, oldPrefix))
  }

  lemma SwapAllAppend(x: seq<Clip>, y: seq<Clip>, newClips: map<string, Clip>, oldPrefix: string)
    ensures SwapAll(x + y, newClips, oldPrefix) == SwapAll(x, newClips, oldPrefix) + SwapAll(y, newClips, oldPrefix)
  {
  }

  /** How many of the clip slots `cs` get replaced. */
  function CountReplaceable(cs: seq<Clip>, newClips: map<string, Clip>, oldPrefix: string): nat {
    if cs == [] then 0
    else CountReplaceable(cs[..|cs| - 1], newClips, oldPrefix) + (if BaseName(cs[|cs| - 1], oldPrefix) in newClips then 1 else 0)
  }

  lemma {:induction false} CountAppend(x: seq<Clip>, y: seq<Clip>, newClips: map<string, Clip>, oldPrefix: string)
    ensures CountReplaceable(x + y, newClips, oldPrefix) ==
            CountReplaceable(x, newClips, oldPrefix) + CountReplaceable(y, newClips, oldPrefix)
    decreases |y|
  {
    if y != [] {
      var last := |y| - 1;
      assert (x + y)[..|x + y| - 1] == x + y[..last];
      CountAppend(x, y[..last], newClips, oldPrefix);
    } else {
      assert x + y == x;
    }
  }

  /** The count is zero exactly when no slot's base name is a key, and then replacement changes no slot. */
  lemma {:induction false} CountIsReplacedSlots(cs: seq<Clip>, newClips: map<string, Clip>, oldPrefix: string)
    ensures CountReplaceable(cs, newClips, oldPrefix) == 0 <==>
              forall i :: 0 <= i < |cs| ==> BaseName(cs[i], oldPrefix) !in newClips
    ensures CountReplaceable(cs, newClips, oldPrefix) == 0 ==> SwapAll(cs, newClips, oldPrefix) == cs
    ensures CountReplaceable(cs, newClips, oldPrefix) <= |cs|
  {
    if cs != [] {
      var front := cs[..|cs| - 1];
      CountIsReplacedSlots(front, newClips, oldPrefix);
      assert forall i :: 0 <= i < |front| ==> front[i] == cs[i];
    }
  }

  /**
   * Motion `r` is motion `m` after the walk: the same shape, a clip swapped by Swap and
   * an empty slot left empty (a blend tree's own clips are stated by ReplaceInBlendTree).
   */
  predicate MotionReplaced(m: Motion, r: Motion, newClips: map<string, Clip>, oldPrefix: string) {
    && SameShape(m, r)
    && (m.ClipMotion? ==> r == ClipMotion(Swap(m.clip, newClips, oldPrefix)))
    && (m.NoMotion? ==> r == m)
  }

  /** State `r` is state `s` after the walk: the same name, and its motion replaced as above. */
  predicate StateReplaced(s: State, r: State, newClips: map<string, Clip>, oldPrefix: string) {
    r.name == s.name && MotionReplaced(s.motion, r.motion, newClips, oldPrefix)
  }

  /** The next run of slots replaced: the swapped runs line up and the counts add. */
  lemma SwapStep(oldFront: seq<Clip>, oldRun: seq<Clip>, newFront: seq<Clip>, newRun: seq<Clip>,
                 newClips: map<string, Clip>, oldPrefix: string)
    requires newFront == SwapAll(oldFront, newClips, oldPrefix) && newRun == SwapAll(oldRun, newClips, oldPrefix)
    ensures newFront + newRun == SwapAll(oldFront + oldRun, newClips, oldPrefix)
    ensures CountReplaceable(oldFront + oldRun, newClips, oldPrefix) ==
            CountReplaceable(oldFront, newClips, oldPrefix) + CountReplaceable(oldRun, newClips, oldPrefix)
  {
    SwapAllAppend(oldFront, oldRun, newClips, oldPrefix);
    CountAppend(oldFront, oldRun, newClips, oldPrefix);
  }

  /**
   * Replaces the clips of a blend tree, recursing into nested blend trees: each child
   * clip whose base name is a key becomes the mapped clip, every other child is kept,
   * and the count is the number of clip slots replaced.
   */
  method ReplaceInBlendTree(tree: Motion, newClips: map<string, Clip>, oldPrefix: string)
    returns (result: Motion, replaced: nat)
    requires tree.BlendTree?
    ensures result.BlendTree? && |result.children| == |tree.children|
    ensures forall i :: 0 <= i < |tree.children| ==> MotionReplaced(tree.children[i], result.children[i], newClips, oldPrefix)
    ensures MotionClips(result) == SwapAll(MotionClips(tree), newClips, oldPrefix)
    ensures replaced == CountReplaceable(MotionClips(tree), newClips, oldPrefix)
    decreases tree, 0
  {
    var original := tree.children;
    var children := original;
    replaced := 0;
    for i := 0 to |original|
      invariant |children| == |original|
      invariant forall k :: 0 <= k < i ==> MotionReplaced(original[k], children[k], newClips, oldPrefix)
      invariant ChildClips(children[..i]) == SwapAll(ChildClips(original[..i]), newClips, oldPrefix)
      invariant replaced == CountReplaceable(ChildClips(original[..i]), newClips, oldPrefix)
    {
      ChildClipsStep(original, i);
      var before := children;
      var child, count := ReplaceInMotion(original[i], newClips, oldPrefix);
      children := children[i := child];
      replaced := replaced + count;
      assert children[..i] == before[..i];
      ChildClipsStep(children, i);
      SwapStep(ChildClips(original[..i]), MotionClips(original[i]), ChildClips(children[..i]), MotionClips(child),
               newClips, oldPrefix);
    }
    assert original[..|original|] == original && children[..|children|] == children;
    result := BlendTree(children);
  }

  /**
   * Replaces the clips of a state machine: the states' motions first, then every
   * sub-state machine recursively. State names and the machine's shape are kept.
   */
  method ReplaceInStateMachine(sm: StateMachine, newClips: map<string, Clip>, oldPrefix: string)
    returns (result: StateMachine, replaced: nat)
    ensures SameMachineShape(sm, result)
    ensures forall i :: 0 <= i < |sm.states| ==> StateReplaced(sm.states[i], result.states[i], newClips, oldPrefix)
    ensures MachineClips(result) == SwapAll(MachineClips(sm), newClips, oldPrefix)
    ensures replaced == CountReplaceable(MachineClips(sm), newClips, oldPrefix)
    decreases sm
  {
    var states, fromStates := ReplaceInStates(sm.states, newClips, oldPrefix);
    var subs, fromSubs := ReplaceInMachines(sm.subMachines, newClips, oldPrefix);
    result := StateMachine(states, subs);
    replaced := fromStates + fromSubs;
    SwapAllAppend(StateClips(sm.states), MachinesClips(sm.subMachines), newClips, oldPrefix);
    CountAppend(StateClips(sm.states), MachinesClips(sm.subMachines), newClips, oldPrefix);
  }

  /** The loop over a state machine's states: a clip motion directly, a blend tree through ReplaceInBlendTree. */
  method ReplaceInStates(original: seq<State>, newClips: map<string, Clip>, oldPrefix: string)
    returns (states: seq<State>, replaced: nat)
    ensures |states| == |original|
    ensures forall k :: 0 <= k < |original| ==> StateReplaced(original[k], states[k], newClips, oldPrefix)
    ensures StateClips(states) == SwapAll(StateClips(original), newClips, oldPrefix)
    ensures replaced == CountReplaceable(StateClips(original), newClips, oldPrefix)
  {
    states := original;
    replaced := 0;
    for i := 0 to |original|
      invariant |states| == |original|
      invariant forall k :: 0 <= k < i ==> StateReplaced(original[k], states[k], newClips, oldPrefix)
      invariant StateClips(states[..i]) == SwapAll(StateClips(original[..i]), newClips, oldPrefix)
      invariant replaced == CountReplaceable(StateClips(original[..i]), newClips, oldPrefix)
    {
      StateClipsStep(original, i);
      var before := states;
      var state, count := ReplaceInState(original[i], newClips, oldPrefix);
      states := states[i := state];
      replaced := replaced + count;
      assert states[..i] == before[..i];
      StateClipsStep(states, i);
      SwapStep(StateClips(original[..i]), MotionClips(original[i].motion), StateClips(states[..i]),
               MotionClips(state.motion), newClips, oldPrefix);
    }
    assert original[..|original|] == original && states[..|states|] == states;
  }

  /** One state of the loop: a clip motion is swapped directly, a blend tree through ReplaceInBlendTree. */
  method ReplaceInState(state: State, newClips: map<string, Clip>, oldPrefix: string)
    returns (result: State, replaced: nat)
    ensures StateReplaced(state, result, newClips, oldPrefix)
    ensures MotionClips(result.motion) == SwapAll(MotionClips(state.motion), newClips, oldPrefix)
    ensures replaced == CountReplaceable(MotionClips(state.motion), newClips, oldPrefix)
  {
    var motion, count := ReplaceInMotion(state.motion, newClips, oldPrefix);
    result, replaced := state.(motion := motion), count;
  }

  /**
   * One motion slot: a clip is swapped when its base name is a key, a blend tree is
   * walked by ReplaceInBlendTree, an empty slot stays empty.
   */
  method ReplaceInMotion(motion: Motion, newClips: map<string, Clip>, oldPrefix: string)
    returns (result: Motion, replaced: nat)
    ensures MotionReplaced(motion, result, newClips, oldPrefix)
    ensures MotionClips(result) == SwapAll(MotionClips(motion), newClips, oldPrefix)
    ensures replaced == CountReplaceable(MotionClips(motion), newClips, oldPrefix)
    decreases motion, 1
  {
    result, replaced := motion, 0;
    match motion {
      case ClipMotion(clip) =>
        if BaseName(clip, oldPrefix) in newClips {
          result := ClipMotion(newClips[BaseName(clip, oldPrefix)]);
          replaced := 1;
        }
        assert SwapAll([clip], newClips, oldPrefix) == [Swap(clip, newClips, oldPrefix)];
        assert [clip][..0] == [];
      case BlendTree(_) =>
        result, replaced := ReplaceInBlendTree(motion, newClips, oldPrefix);
      case NoMotion =>
    }
  }

  /** The loop over a sequence of state machines (a machine's sub-state machines, or a controller's layers), each replaced recursively. */
  method ReplaceInMachines(original: seq<StateMachine>, newClips: map<string, Clip>, oldPrefix: string)
    returns (subs: seq<StateMachine>, replaced: nat)
    ensures |subs| == |original|
    ensures forall k :: 0 <= k < |original| ==> SameMachineShape(original[k], subs[k])
    ensures MachinesClips(subs) == SwapAll(MachinesClips(original), newClips, oldPrefix)
    ensures replaced == CountReplaceable(MachinesClips(original), newClips, oldPrefix)
    decreases original
  {
    subs := original;
    replaced := 0;
    for i := 0 to |original|
      invariant |subs| == |original|
      invariant forall k :: 0 <= k < i ==> SameMachineShape(original[k], subs[k])
      invariant MachinesClips(subs[..i]) == SwapAll(MachinesClips(original[..i]), newClips, oldPrefix)
      invariant replaced == CountReplaceable(MachinesClips(original[..i]), newClips, oldPrefix)
    {
      MachinesClipsStep(original, i);
      var before := subs;
      var sub, count := ReplaceInStateMachine(original[i], newClips, oldPrefix);
      subs := subs[i := sub];
      replaced := replaced + count;
      assert subs[..i] == before[..i];
      MachinesClipsStep(subs, i);
      SwapStep(MachinesClips(original[..i]), MachineClips(original[i]), MachinesClips(subs[..i]), MachineClips(sub),
               newClips, oldPrefix);
    }
    assert original[..|original|] == original && subs[..|subs|] == subs;
  }

  /**
   * The replacer window's state: the controller and model file it was given (null when
   * not chosen) and the two prefixes, initially "Arm_Collie|" and "Arm_Shiba|".
   */
  class AnimatorClipReplacer {
    var animatorController: Option<Controller>
    /** The sub-assets loaded from the chosen model file. */
    var newFbx: Option<seq<Asset>>
    var oldPrefix: string
    var newPrefix: string

    constructor ()
      ensures animatorController == None && newFbx == None
      ensures oldPrefix == "Arm_Collie|" && newPrefix == "Arm_Shiba|"
    {
      animatorController := None;
      newFbx := None;
      oldPrefix := "Arm_Collie|";
      newPrefix := "Arm_Shiba|";
    }

    /**
     * Without a controller or a model file nothing happens. Otherwise the new-clip map is
     * built from the model file's clips and every layer of the controller is walked; the
     * result keeps the controller's shape, replaces every clip slot by Swap and counts the
     * replaced slots.
     */
    method ReplaceClips() returns (replacedCount: nat, ghost newClips: map<string, Clip>)
      modifies this`animatorController
      ensures old(animatorController).None? || newFbx.None? ==>
                animatorController == old(animatorController) && replacedCount == 0
      ensures old(animatorController).Some? && newFbx.Some? ==>
                && IsNewClipMap(newFbx.value, newPrefix, newClips)
                && animatorController.Some?
                && SameControllerShape(old(animatorController).value, animatorController.value)
                && ControllerClips(animatorController.value) ==
                   SwapAll(ControllerClips(old(animatorController).value), newClips, oldPrefix)
                && replacedCount == CountReplaceable(ControllerClips(old(animatorController).value), newClips, oldPrefix)
    {
      newClips := map[];
      if animatorController.None? || newFbx.None? {
        return 0, newClips;
      }
      var clips := BuildNewClips(newFbx.value, newPrefix);
      newClips := clips;
      var layers, count := ReplaceInMachines(animatorController.value.layers, clips, oldPrefix);
      animatorController := Some(Controller(layers));
      replacedCount := count;
    }
  }
}
