/**
 * The interaction side of `SceneManager.createScene`: the keyboard-driven switch
 * between moving the object with a transform gizmo and orbiting the camera, and
 * `resetPosition`, which sets the object down on the floor plane.
 */
module SceneManager {
  import opened Wrappers
  import opened Three

  // ---------------------------------------------------------------------------
  // The interaction mode.

  /** `MODES = { ORBIT: 0, TRANSFORM: 1 }`. */
  datatype Mode = Orbit | Transform

  function ModeCode(m: Mode): nat
  {
    match m
    case Orbit => 0
    case Transform => 1
  }

  /** The gizmo's `setMode` argument: "translate" or "rotate". */
  datatype GizmoMode = Translate | Rotate

  const TRANSFORM_LABEL: string := "Transform"
  const ORBIT_LABEL: string := "Orbit"

  /**
   * Everything the mode switch and the key handler touch: `currMode`,
   * `orbit.enabled`, `controls.enabled`, the gizmo's mode and the `#mode` label.
   */
  datatype Controls = Controls(currMode: Mode, orbitEnabled: bool, gizmoEnabled: bool, gizmo: GizmoMode,
                               modeText: string)

  /**
   * The state `createScene` sets up: the label reads "Transform", the transform
   * controls start enabled in "translate" mode, orbiting is disabled, and
   * `currMode` is `TRANSFORM`.
   */
  const INITIAL: Controls := Controls(Transform, false, true, Translate, TRANSFORM_LABEL)

  /** The two enabled flags and the label agree with the mode. */
  predicate Coherent(c: Controls) {
    && (c.orbitEnabled <==> c.currMode == Orbit)
    && (c.gizmoEnabled <==> c.currMode == Transform)
    && c.modeText == (if c.currMode == Orbit then ORBIT_LABEL else TRANSFORM_LABEL)
  }

  function Other(m: Mode): Mode {
    if m == Orbit then Transform else Orbit
  }

  /** `switchControls()`. */
  function Switched(c: Controls): (r: Controls)
    ensures r.currMode == Other(c.currMode) && r.gizmo == c.gizmo
    ensures Coherent(r)
  {
    match c.currMode
    case Orbit => c.(orbitEnabled := false, gizmoEnabled := true, currMode := Transform, modeText := TRANSFORM_LABEL)
    case Transform => c.(orbitEnabled := true, gizmoEnabled := false, currMode := Orbit, modeText := ORBIT_LABEL)
  }

  /** The `keydown` listener: `KeyG` and `KeyR` set the gizmo mode, `KeyQ` switches, and other keys do nothing. */
  function OnKey(c: Controls, code: string): Controls {
    if code == "KeyG" then c.(gizmo := Translate)
    else if code == "KeyR" then c.(gizmo := Rotate)
    else if code == "KeyQ" then Switched(c)
    else c
  }

  /** The state after a run of `keydown` events, in order. */
  function AfterKeys(c: Controls, codes: seq<string>): Controls
    decreases |codes|
  {
    if codes == [] then c else AfterKeys(OnKey(c, codes[0]), codes[1..])
  }

  /** How many of the key codes are `KeyQ`. */
  function Switches(codes: seq<string>): nat
    decreases |codes|
  {
    if codes == [] then 0 else (if codes[0] == "KeyQ" then 1 else 0) + Switches(codes[1..])
  }

  lemma InitialCoherent()
    ensures Coherent(INITIAL) && INITIAL.currMode == Transform && ModeCode(INITIAL.currMode) == 1
    ensures !INITIAL.orbitEnabled && INITIAL.modeText == "Transform"
  {
  }

  /** Switching from TRANSFORM enables orbiting, disables the gizmo and shows "Orbit". */
  lemma SwitchFromTransform(c: Controls)
    requires c.currMode == Transform
    ensures Switched(c) == c.(currMode := Orbit, orbitEnabled := true, gizmoEnabled := false, modeText := "Orbit")
  {
  }

  /** Switching from ORBIT is the exact reverse. */
  lemma SwitchFromOrbit(c: Controls)
    requires c.currMode == Orbit
    ensures Switched(c) == c.(currMode := Transform, orbitEnabled := false, gizmoEnabled := true, modeText := "Transform")
  {
  }

  /** Two switches in a row give back the state they started from. */
  lemma SwitchTwice(c: Controls)
    requires Coherent(c)
    ensures Switched(Switched(c)) == c
  {
  }

  /** `KeyG`/`KeyR` change the gizmo mode only, in either interaction mode; keys other than G, R and Q change nothing. */
  lemma GizmoKeys(c: Controls, code: string)
    ensures code == "KeyG" ==> OnKey(c, code) == c.(gizmo := Translate)
    ensures code == "KeyR" ==> OnKey(c, code) == c.(gizmo := Rotate)
    ensures code != "KeyG" && code != "KeyR" && code != "KeyQ" ==> OnKey(c, code) == c
    ensures code != "KeyQ" ==>
              && OnKey(c, code).currMode == c.currMode
              && OnKey(c, code).orbitEnabled == c.orbitEnabled && OnKey(c, code).gizmoEnabled == c.gizmoEnabled
              && OnKey(c, code).modeText == c.modeText
  {
  }

  /** Every key keeps the flags and the label in step with the mode. */
  lemma OnKeyCoherent(c: Controls, code: string)
    requires Coherent(c)
    ensures Coherent(OnKey(c, code))
  {
  }

  /** After any run of keys from a coherent state, the flags and the label still match the mode. */
  lemma {:induction false} AfterKeysCoherent(c: Controls, codes: seq<string>)
    requires Coherent(c)
    ensures Coherent(AfterKeys(c, codes))
    decreases |codes|
  {
    if codes != [] {
      OnKeyCoherent(c, codes[0]);
      AfterKeysCoherent(OnKey(c, codes[0]), codes[1..]);
    }
  }

  /** The mode after a run of keys depends only on whether `KeyQ` was pressed an even or odd number of times. */
  lemma {:induction false} ModeParity(c: Controls, codes: seq<string>)
    ensures AfterKeys(c, codes).currMode == if Switches(codes) % 2 == 0 then c.currMode else Other(c.currMode)
    decreases |codes|
  {
    if codes != [] {
      ModeParity(OnKey(c, codes[0]), codes[1..]);
    }
  }

  /** From the initial state: in ORBIT exactly when `KeyQ` came an odd number of times, with orbiting on. */
  lemma InitialAfterKeys(codes: seq<string>)
    ensures var c := AfterKeys(INITIAL, codes);
            && (c.currMode == Orbit <==> Switches(codes) % 2 == 1)
            && (c.orbitEnabled <==> Switches(codes) % 2 == 1)
            && (c.gizmoEnabled <==> Switches(codes) % 2 == 0)
  {
    ModeParity(INITIAL, codes);
    AfterKeysCoherent(INITIAL, codes);
  }

  /**
   * The closure state of one `createScene` call: `currMode`, the two controls'
   * `enabled` flags, the gizmo's mode and the label text.
   */
  class InteractionController {
    var currMode: Mode
    var orbitEnabled: bool
    var gizmoEnabled: bool
    var gizmo: GizmoMode
    var modeText: string

    function State(): Controls
      reads this
    {
      Controls(currMode, orbitEnabled, gizmoEnabled, gizmo, modeText)
    }

    ghost predicate Valid()
      reads this
    {
      Coherent(State())
    }

    constructor ()
      ensures Valid()
      ensures State() == INITIAL
    {
      modeText := TRANSFORM_LABEL;
      gizmoEnabled := true;
      gizmo := Translate;
      orbitEnabled := false;
      currMode := Transform;
    }

    /** `switchControls()`: flip the mode and set both flags and the label from it. */
    method SwitchControls()
      modifies this
      ensures State() == Switched(old(State()))
      ensures Valid()
    {
      match currMode {
        case Orbit =>
          orbitEnabled := false;
          gizmoEnabled := true;
          currMode := Transform;
          modeText := TRANSFORM_LABEL;
        case Transform =>
          orbitEnabled := true;
          gizmoEnabled := false;
          currMode := Orbit;
          modeText := ORBIT_LABEL;
      }
    }

    /** The `keydown` listener, on `event.code`. */
    method OnKeyDown(code: string)
      requires Valid()
      modifies this
      ensures State() == OnKey(old(State()), code)
      ensures Valid()
    {
      if code == "KeyG" {
        gizmo := Translate;
      } else if code == "KeyR" {
        gizmo := Rotate;
      } else if code == "KeyQ" {
        SwitchControls();
      }
      OnKeyCoherent(old(State()), code);
    }
  }

  // ---------------------------------------------------------------------------
  // resetPosition.

  /** What a `min.y` read chain yields: a number, `undefined`, or a `TypeError`. */
  datatype MinY = Value(y: real) | Undefined | Throws

  /** `object.geometry?.boundingBox.min.y`: no geometry gives `undefined`, a `null` bounding box throws. */
  function OwnMinY(o: Object3D): MinY {
    match o.geometry
    case None => Undefined
    case Some(g) =>
      match g.boundingBox
      case None => Throws
      case Some(b) => Value(b.minY)
  }

  /** `object.children[0]?.geometry.boundingBox.min.y`: no child gives `undefined`; a missing geometry or box throws. */
  function ChildMinY(o: Object3D): MinY {
    if o.children == [] then Undefined
    else
      match o.children[0].geometry
      case None => Throws
      case Some(g) =>
        match g.boundingBox
        case None => Throws
        case Some(b) => Value(b.minY)
  }

  /** JavaScript truthiness of a number or `undefined`. */
  predicate Truthy(v: MinY) {
    v.Value? && v.y != 0.0
  }

  /** `a || b`, where evaluating `a` may already have thrown. */
  function Or(a: MinY, b: MinY): MinY {
    if a.Throws? then Throws else if Truthy(a) then a else b
  }

  /** The `yDiff` of `resetPosition`. */
  function YDiff(o: Object3D): MinY {
    Or(OwnMinY(o), ChildMinY(o))
  }

  /** `-yDiff`: the negated number, or `NaN` for `undefined`. */
  function Negated(v: MinY): Coord
    requires !v.Throws?
  {
    match v
    case Value(y) => Num(-y)
    case Undefined => NaN
  }

  /**
   * `yDiff` is the object's own minimum when that is a non-zero number, the first
   * child's when the own one is `undefined` or 0, and an error when reading the
   * own one fails.
   */
  lemma YDiffChoice(o: Object3D)
    ensures OwnMinY(o).Throws? ==> YDiff(o) == Throws
    ensures OwnMinY(o).Value? && OwnMinY(o).y != 0.0 ==> YDiff(o) == OwnMinY(o)
    ensures OwnMinY(o) == Undefined || OwnMinY(o) == Value(0.0) ==> YDiff(o) == ChildMinY(o)
    ensures YDiff(o).Throws? <==>
              OwnMinY(o).Throws? || (!Truthy(OwnMinY(o)) && ChildMinY(o).Throws?)
  {
  }

  /**
   * A mesh sitting exactly on the floor (own `min.y` of 0) with no children takes
   * the `undefined` branch of `||`, so its y coordinate becomes `NaN`.
   */
  lemma ZeroMinimumWithoutChildren(o: Object3D)
    requires o.geometry == Some(Geometry(Some(Box3(0.0)))) && o.children == []
    ensures YDiff(o) == Undefined && Negated(YDiff(o)) == NaN
  {
  }

  /**
   * `resetPosition(object)`: the position is first reset to the origin; if reading
   * `yDiff` throws, it stays there, otherwise it becomes `(0, -yDiff, 0)`.
   */
  method ResetPosition(o: Object3D) returns (threw: bool)
    modifies o
    ensures threw <==> YDiff(o).Throws?
    ensures threw ==> o.position == ORIGIN
    ensures !threw ==> o.position == Vector3(Num(0.0), Negated(YDiff(o)), Num(0.0))
    ensures o.scale == old(o.scale)
  {
    o.position := ORIGIN;
    var own := OwnMinY(o);
    if own.Throws? {
      return true;
    }
    var yDiff := own;
    if !Truthy(own) {
      var child := ChildMinY(o);
      if child.Throws? {
        return true;
      }
      yDiff := child;
    }
    o.position := Vector3(Num(0.0), Negated(yDiff), Num(0.0));
    return false;
  }
}
