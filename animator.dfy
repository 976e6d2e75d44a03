/**
 * The animator assets both clip tools walk: clips, blend trees, states, state
 * machines with nested sub-state machines, and controllers made of layers.
 */
module Animator {

  /** An animation clip asset: its name and the identity of the asset object. */
  datatype Clip = Clip(name: string, asset: nat)

  /** What a state or a blend-tree child plays: nothing (null), a clip, or a nested blend tree. */
  datatype Motion = NoMotion | ClipMotion(clip: Clip) | BlendTree(children: seq<Motion>)

  datatype State = State(name: string, motion: Motion)

  datatype StateMachine = StateMachine(states: seq<State>, subMachines: seq<StateMachine>)

  /** An animator controller: one root state machine per layer. */
  datatype Controller = Controller(layers: seq<StateMachine>)

  /** A sub-asset loaded from a model file: an animation clip or anything else. */
  datatype Asset = ClipAsset(clip: Clip) | OtherAsset

  /** The clip slots of a motion, in the order the tools visit them. */
  function MotionClips(m: Motion): seq<Clip> {
    match m
    case NoMotion => []
    case ClipMotion(c) => [c]
    case BlendTree(children) => ChildClips(children)
  }

  function ChildClips(ms: seq<Motion>): seq<Clip> {
    if ms == [] then [] else ChildClips(ms[..|ms| - 1]) + MotionClips(ms[|ms| - 1])
  }

  function StateClips(states: seq<State>): seq<Clip> {
    if states == [] then [] else StateClips(states[..|states| - 1]) + MotionClips(states[|states| - 1].motion)
  }

  /** The clip slots of a state machine: its states first, then its sub-state machines. */
  function MachineClips(sm: StateMachine): seq<Clip> {
    StateClips(sm.states) + MachinesClips(sm.subMachines)
  }

  function MachinesClips(sms: seq<StateMachine>): seq<Clip> {
    if sms == [] then [] else MachinesClips(sms[..|sms| - 1]) + MachineClips(sms[|sms| - 1])
  }

  function ControllerClips(c: Controller): seq<Clip> {
    MachinesClips(c.layers)
  }

  lemma ChildClipsStep(ms: seq<Motion>, i: nat)
    requires i < |ms|
    ensures ChildClips(ms[..i + 1]) == ChildClips(ms[..i]) + MotionClips(ms[i])
  {
    assert ms[..i + 1][..i] == ms[..i];
  }

  lemma StateClipsStep(states: seq<State>, i: nat)
    requires i < |states|
    ensures StateClips(states[..i + 1]) == StateClips(states[..i]) + MotionClips(states[i].motion)
  {
    assert states[..i + 1][..i] == states[..i];
  }

  lemma MachinesClipsStep(sms: seq<StateMachine>, i: nat)
    requires i < |sms|
    ensures MachinesClips(sms[..i + 1]) == MachinesClips(sms[..i]) + MachineClips(sms[i])
  {
    assert sms[..i + 1][..i] == sms[..i];
  }

  /** Two motions that differ at most in which clips fill their clip slots. */
  predicate SameShape(m: Motion, n: Motion) {
    match m
    case NoMotion => n.NoMotion?
    case ClipMotion(_) => n.ClipMotion?
    case BlendTree(children) =>
      n.BlendTree? && |n.children| == |children| &&
      forall i :: 0 <= i < |children| ==> SameShape(children[i], n.children[i])
  }

  predicate SameMachineShape(sm: StateMachine, sn: StateMachine) {
    && |sn.states| == |sm.states|
    && (forall i :: 0 <= i < |sm.states| ==>
          sn.states[i].name == sm.states[i].name && SameShape(sm.states[i].motion, sn.states[i].motion))
    && |sn.subMachines| == |sm.subMachines|
    && (forall i :: 0 <= i < |sm.subMachines| ==> SameMachineShape(sm.subMachines[i], sn.subMachines[i]))
  }

  predicate SameControllerShape(c: Controller, d: Controller) {
    |d.layers| == |c.layers| && forall i :: 0 <= i < |c.layers| ==> SameMachineShape(c.layers[i], d.layers[i])
  }
}
