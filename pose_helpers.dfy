// Private/Delivery/Helpers/DeliveryPoseHelpersV3.cpp: the anchor pose of a
// delivery primitive and the freeze-on-place state machine kept in its
// delivery context.
module PoseHelpers {
  import opened Common

  /** A world-space transform, kept abstract: the helpers only copy it. */
  datatype Transform = Transform(location: Vec, rotation: Vec, scale: Vec)

  const Identity: Transform := Transform(ZeroVec, ZeroVec, Vec(1.0, 1.0, 1.0))

  /** The anchor kinds the helpers tell apart: World, and every other kind. */
  datatype AnchorKind = WorldAnchor | OtherAnchor
  datatype FollowMode = FreezeOnPlace | OtherFollow

  /** The freeze state of a delivery context: the frozen flag and the pose recorded with it. */
  datatype FreezeState = FreezeState(frozen: bool, frozenPose: Transform)

  const Unfrozen: FreezeState := FreezeState(false, Identity)

  /**
   * ApplyFollowMode as a step on the freeze state and the anchor pose. A
   * World anchor and a mode other than FreezeOnPlace clear the freeze
   * state and keep the pose; under FreezeOnPlace the first call records the
   * pose and keeps it, and later calls replace the pose by the recorded one.
   */
  function FollowStep(kind: AnchorKind, mode: FollowMode, st: FreezeState, pose: Transform): (r: (FreezeState, Transform))
    ensures kind == WorldAnchor || mode != FreezeOnPlace ==> r == (Unfrozen, pose)
    ensures kind != WorldAnchor && mode == FreezeOnPlace && !st.frozen ==> r == (FreezeState(true, pose), pose)
    ensures kind != WorldAnchor && mode == FreezeOnPlace && st.frozen ==> r == (st, st.frozenPose)
  {
    if kind == WorldAnchor then (Unfrozen, pose)
    else if mode == FreezeOnPlace then
      (if !st.frozen then (FreezeState(true, pose), pose) else (st, st.frozenPose))
    else (Unfrozen, pose)
  }

  /**
   * Freezing is idempotent: after the first FreezeOnPlace step, every later
   * step yields the pose seen first and leaves the state as it is.
   */
  lemma FreezeHoldsFirstPose(st: FreezeState, p1: Transform, p2: Transform)
    requires !st.frozen
    ensures var (st1, q1) := FollowStep(OtherAnchor, FreezeOnPlace, st, p1);
            var (st2, q2) := FollowStep(OtherAnchor, FreezeOnPlace, st1, p2);
            q1 == p1 && q2 == p1 && st2 == st1
  {
  }

  /** FDeliveryContextV3's anchor spec and freeze fields. */
  class DeliveryPoseContext {
    var anchorKind: AnchorKind
    var followMode: FollowMode
    var anchorFrozen: bool
    var frozenAnchor: Transform

    constructor(kind: AnchorKind, mode: FollowMode)
      ensures anchorKind == kind && followMode == mode && !anchorFrozen && frozenAnchor == Identity
    {
      anchorKind := kind;
      followMode := mode;
      anchorFrozen := false;
      frozenAnchor := Identity;
    }

    function State(): FreezeState
      reads this
    {
      FreezeState(anchorFrozen, frozenAnchor)
    }

    /**
     * ResolveAnchorPoseWS: false without a group; a World anchor resolves
     * to the identity; any other kind is left to the subsystem (false).
     */
    method ResolveAnchorPoseWS(hasGroup: bool, prior: Transform) returns (ok: bool, pose: Transform)
      ensures ok <==> hasGroup && anchorKind == WorldAnchor
      ensures pose == if ok then Identity else prior
    {
      if !hasGroup {
        return false, prior;
      }
      if anchorKind == WorldAnchor {
        return true, Identity;
      }
      return false, prior;
    }

    /** ApplyFollowMode: one FollowStep on the context's freeze fields and the in/out pose. */
    method ApplyFollowMode(pose: Transform) returns (out: Transform)
      modifies this`anchorFrozen, this`frozenAnchor
      ensures (State(), out) == FollowStep(anchorKind, followMode, old(State()), pose)
    {
      out := pose;
      if anchorKind == WorldAnchor {
        anchorFrozen := false;
        frozenAnchor := Identity;
        return;
      }
      if followMode == FreezeOnPlace {
        if !anchorFrozen {
          anchorFrozen := true;
          frozenAnchor := pose;
        } else {
          out := frozenAnchor;
        }
      } else {
        anchorFrozen := false;
        frozenAnchor := Identity;
      }
    }

    /** ResetFreeze: clears the frozen flag and pose. */
    method ResetFreeze()
      modifies this`anchorFrozen, this`frozenAnchor
      ensures State() == Unfrozen
    {
      anchorFrozen := false;
      frozenAnchor := Identity;
    }
  }
}
