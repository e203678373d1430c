/**
 * The transform gizmo wrapper (`Ktisis/Interface/Overlay/Gizmo.cs`): per-frame flags that let only
 * the first `Manipulate` of a frame reach the native gizmo, and a falling-edge detector telling
 * when the user let go of the gizmo.
 *
 * The native gizmo's state is a `NativeGizmo` object; what it answers (whether it is in use, what
 * `Manipulate` returns) is passed in, and the calls made to its `Manipulate` are kept in a log.
 */
module Gizmos {
  /** A 4x4 matrix, row by row. */
  datatype Matrix = Matrix(cells: seq<real>)

  /** `Matrix4x4.Identity`. */
  const Identity := Matrix([1.0, 0.0, 0.0, 0.0, 0.0, 1.0, 0.0, 0.0, 0.0, 0.0, 1.0, 0.0, 0.0, 0.0, 0.0, 1.0])

  /** The gizmo's coordinate mode. */
  datatype Mode = Local | World

  /** The gizmo's operation. */
  datatype Operation = Translate | Rotate | Scale | Universal

  /** `GizmoId`. */
  const DefaultId := -1
  const OverlayMainId := 0
  const TransformEditorId := 1

  /** What one native `Manipulate` call returns: whether it moved, the matrix and the delta. */
  datatype NativeResult = NativeResult(moved: bool, mx: Matrix, delta: Matrix)

  /** The arguments of one native `Manipulate` call. */
  datatype ManipulateCall = ManipulateCall(view: Matrix, proj: Matrix, operation: Operation, mode: Mode, mx: Matrix)

  /** The per-frame flags of a gizmo and how many native `Manipulate` calls it has made. */
  datatype GizmoFlags = GizmoFlags(isUsedPrev: bool, hasDrawn: bool, hasMoved: bool, isEnded: bool, nativeCalls: nat)

  /** The flags after `BeginFrame`, the native gizmo reporting `usingNow`. */
  function Begin(f: GizmoFlags, usingNow: bool): GizmoFlags
  {
    f.(isUsedPrev := usingNow, hasDrawn := false, hasMoved := false)
  }

  /** The flags after `Manipulate`, the native call (if made) reporting `moved`. */
  function Manip(f: GizmoFlags, moved: bool): GizmoFlags
  {
    if f.hasDrawn then f else f.(hasDrawn := true, hasMoved := moved, nativeCalls := f.nativeCalls + 1)
  }

  /** The flags after `Manipulate` calls in turn. */
  function ManipAll(f: GizmoFlags, moves: seq<bool>): GizmoFlags
  {
    if moves == [] then f else Manip(ManipAll(f, moves[..|moves| - 1]), moves[|moves| - 1])
  }

  /** The flags after `EndFrame`, the native gizmo reporting `usingNow`. */
  function End(f: GizmoFlags, usingNow: bool): GizmoFlags
  {
    f.(isEnded := !usingNow && f.isUsedPrev)
  }

  /** A whole frame: `BeginFrame`, some `Manipulate` calls, `EndFrame`. */
  function Frame(f: GizmoFlags, usingAtBegin: bool, moves: seq<bool>, usingAtEnd: bool): GizmoFlags
  {
    End(ManipAll(Begin(f, usingAtBegin), moves), usingAtEnd)
  }

  /** After a first `Manipulate`, later ones in the same frame change nothing. */
  lemma {:induction false} ManipulateOnce(f: GizmoFlags, moves: seq<bool>)
    requires !f.hasDrawn && moves != []
    ensures ManipAll(f, moves) == f.(hasDrawn := true, hasMoved := moves[0], nativeCalls := f.nativeCalls + 1)
  {
    var init := moves[..|moves| - 1];
    if init != [] {
      ManipulateOnce(f, init);
    }
  }

  /**
   * In every frame the native gizmo is called at most once, by the first `Manipulate`; the frame
   * has moved exactly when that call moved; and `IsEnded` is set exactly when the gizmo was in use
   * at `BeginFrame` and no longer is at `EndFrame`.
   */
  lemma FrameRules(f: GizmoFlags, usingAtBegin: bool, moves: seq<bool>, usingAtEnd: bool)
    ensures var g := Frame(f, usingAtBegin, moves, usingAtEnd);
            g.nativeCalls == f.nativeCalls + (if moves == [] then 0 else 1) &&
            (g.hasDrawn <==> moves != []) &&
            (g.hasMoved <==> moves != [] && moves[0]) &&
            (g.isEnded <==> usingAtBegin && !usingAtEnd)
  {
    if moves != [] {
      ManipulateOnce(Begin(f, usingAtBegin), moves);
    }
  }

  /** While the gizmo stays in use, or stays unused, no frame ends it. */
  lemma SteadyUseNeverEnds(f: GizmoFlags, usingNow: bool, moves: seq<bool>)
    ensures !Frame(f, usingNow, moves, usingNow).isEnded
  {
    FrameRules(f, usingNow, moves, usingNow);
  }

  /** The native gizmo's global settings, set by `BeginFrame`. */
  class NativeGizmo {
    var id: int
    var gizmoScale: real
    var allowAxisFlip: bool

    constructor ()
    {
    }
  }

  class Gizmo {
    const id: int
    var scaleFactor: real
    var mode: Mode
    var operation: Operation
    var allowAxisFlip: bool
    var isEnded: bool
    var isUsedPrev: bool
    var hasDrawn: bool
    var hasMoved: bool
    var viewMatrix: Matrix
    var projMatrix: Matrix
    /** The native `Manipulate` calls made so far. */
    var calls: seq<ManipulateCall>

    function Flags(): GizmoFlags
      reads this
    {
      GizmoFlags(isUsedPrev, hasDrawn, hasMoved, isEnded, |calls|)
    }

    /** The defaults: scale 0.1, local mode, universal operation, axis flip allowed, not ended. */
    constructor (id: int)
      ensures this.id == id && scaleFactor == 0.1 && mode == Local && operation == Universal
      ensures allowAxisFlip && !isEnded && !isUsedPrev && !hasDrawn && !hasMoved
      ensures viewMatrix == Identity && projMatrix == Identity && calls == []
    {
      this.id := id;
      scaleFactor := 0.1;
      mode := Local;
      operation := Universal;
      allowAxisFlip := true;
      isEnded := false;
      isUsedPrev := false;
      hasDrawn := false;
      hasMoved := false;
      viewMatrix := Identity;
      projMatrix := Identity;
      calls := [];
    }

    /** `SetMatrix`: the view and projection used by later `Manipulate` calls. */
    method SetMatrix(view: Matrix, proj: Matrix)
      modifies this`viewMatrix, this`projMatrix
      ensures viewMatrix == view && projMatrix == proj
    {
      viewMatrix := view;
      projMatrix := proj;
    }

    /**
     * `BeginFrame`: the frame flags are reset, the native gizmo takes this gizmo's id, scale and
     * axis-flip setting, and whether it is in use (`usingNow`) is remembered.
     */
    method BeginFrame(native: NativeGizmo, usingNow: bool)
      modifies this`hasDrawn, this`hasMoved, this`isUsedPrev, native
      ensures Flags() == Begin(old(Flags()), usingNow)
      ensures native.id == id && native.gizmoScale == scaleFactor && native.allowAxisFlip == allowAxisFlip
    {
      hasDrawn := false;
      hasMoved := false;
      native.id := id;
      native.gizmoScale := scaleFactor;
      native.allowAxisFlip := allowAxisFlip;
      isUsedPrev := usingNow;
    }

    /**
     * `Manipulate`: the first call of a frame hands the stored matrices, operation, mode and `mx`
     * to the native gizmo and returns what it answers (`native`); any later call returns false, an
     * identity delta and `mx` unchanged.
     */
    method Manipulate(mx: Matrix, native: NativeResult) returns (moved: bool, mxOut: Matrix, delta: Matrix)
      modifies this`hasDrawn, this`hasMoved, this`calls
      ensures Flags() == Manip(old(Flags()), native.moved)
      ensures old(hasDrawn) ==> !moved && mxOut == mx && delta == Identity && calls == old(calls)
      ensures !old(hasDrawn) ==> moved == native.moved && mxOut == native.mx && delta == native.delta &&
                                 calls == old(calls) + [ManipulateCall(viewMatrix, projMatrix, operation, mode, mx)]
    {
      delta := Identity;
      mxOut := mx;
      if hasDrawn {
        return false, mxOut, delta;
      }
      calls := calls + [ManipulateCall(viewMatrix, projMatrix, operation, mode, mx)];
      mxOut := native.mx;
      delta := native.delta;
      hasDrawn := true;
      hasMoved := native.moved;
      moved := hasMoved;
    }

    /** `EndFrame`: the gizmo has ended when it was in use at `BeginFrame` and is not now. */
    method EndFrame(usingNow: bool)
      modifies this`isEnded
      ensures Flags() == End(old(Flags()), usingNow)
    {
      isEnded := !usingNow && isUsedPrev;
    }
  }
}
