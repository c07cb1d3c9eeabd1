/**
  Track-matte descriptors: one record per active mask, created, refreshed and
  destroyed by the animation engine's track-matte callbacks. The descriptors
  live in a map keyed by the engine's node identity instead of on the heap.
 */
module TrackMatte {
  import opened SimpleMath
  import opened Meshes

  /** The identity of the layer node the engine attaches a descriptor to. */
  type NodeId = nat

  /** The engine's track-matte mode (alpha, inverted alpha, ...), kept as its code. */
  type MatteMode = nat

  /** `TrackMatteDesc`: the mask's transform, a snapshot of its mesh, and its mode. */
  datatype TrackMatteDesc = TrackMatteDesc(matrix: Mat4, mesh: RenderMesh, mode: MatteMode)

  /** The node state reported with an update; only the two update states act. */
  datatype UpdateState = UpdateBegin | UpdateProcess | OtherState(code: nat)

  type Mattes = map<NodeId, TrackMatteDesc>

  /**
    `OnProvideTrackMatte`: a new descriptor for `node`, holding the callback's
    matrix, its first mesh and its mode. No other node's descriptor changes.
   */
  function OnProvideTrackMatte(m: Mattes, node: NodeId, matrix: Mat4, mesh: RenderMesh, mode: MatteMode): (m': Mattes)
    ensures node in m'
    ensures m'[node].matrix == matrix && m'[node].mesh == mesh && m'[node].mode == mode
    ensures m'.Keys == m.Keys + {node}
    ensures forall k :: k in m && k != node ==> m'[k] == m[k]
  {
    m[node := TrackMatteDesc(matrix, mesh, mode)]
  }

  /**
    `OnUpdateTrackMatte`: in the UPDATE_BEGIN and UPDATE_PROCESS states the
    node's descriptor takes the new matrix and mesh and keeps its mode; in any
    other state, or for a node without a descriptor, nothing changes.
   */
  function OnUpdateTrackMatte(m: Mattes, node: NodeId, state: UpdateState, matrix: Mat4, mesh: RenderMesh): (m': Mattes)
    ensures m'.Keys == m.Keys
    ensures forall k :: k in m ==> m'[k].mode == m[k].mode
    ensures forall k :: k in m && k != node ==> m'[k] == m[k]
    ensures node in m && !state.OtherState? ==> m'[node].matrix == matrix && m'[node].mesh == mesh
    ensures state.OtherState? ==> m' == m
  {
    if node in m && (state.UpdateBegin? || state.UpdateProcess?) then
      m[node := m[node].(matrix := matrix, mesh := mesh)]
    else
      m
  }

  /** `OnDeleteTrackMatte`: the node's descriptor is gone; the others stay. */
  function OnDeleteTrackMatte(m: Mattes, node: NodeId): (m': Mattes)
    ensures node !in m'
    ensures m'.Keys == m.Keys - {node}
    ensures forall k :: k in m' ==> m'[k] == m[k]
  {
    m - {node}
  }

  /** One update the engine reports for a node. */
  datatype MatteUpdate = MatteUpdate(state: UpdateState, matrix: Mat4, mesh: RenderMesh)

  /** The descriptors after a sequence of updates to one node, in order. */
  function ApplyUpdates(m: Mattes, node: NodeId, updates: seq<MatteUpdate>): Mattes
    decreases |updates|
  {
    if |updates| == 0 then m
    else
      var u := updates[|updates| - 1];
      OnUpdateTrackMatte(ApplyUpdates(m, node, updates[..|updates| - 1]), node, u.state, u.matrix, u.mesh)
  }

  /** The index of the last update in an acting state, if any. */
  function LastActing(updates: seq<MatteUpdate>): (i: int)
    ensures -1 <= i < |updates|
    ensures 0 <= i ==> !updates[i].state.OtherState?
    ensures forall j :: i < j < |updates| ==> updates[j].state.OtherState?
    decreases |updates|
  {
    if |updates| == 0 then -1
    else if !updates[|updates| - 1].state.OtherState? then |updates| - 1
    else LastActing(updates[..|updates| - 1])
  }

  /**
    The descriptor lifecycle: after a provide and any run of updates, the
    node's descriptor keeps the mode it was created with and holds the matrix
    and mesh of the last UPDATE_BEGIN or UPDATE_PROCESS update (or of the
    provide, if there was none); a delete then removes it.
   */
  lemma {:induction false} MatteLifecycle(m: Mattes, node: NodeId, matrix: Mat4, mesh: RenderMesh,
                                          mode: MatteMode, updates: seq<MatteUpdate>)
    ensures var m' := ApplyUpdates(OnProvideTrackMatte(m, node, matrix, mesh, mode), node, updates);
            var i := LastActing(updates);
            && node in m'
            && m'[node].mode == mode
            && (i < 0 ==> m'[node].matrix == matrix && m'[node].mesh == mesh)
            && (0 <= i ==> m'[node].matrix == updates[i].matrix && m'[node].mesh == updates[i].mesh)
            && node !in OnDeleteTrackMatte(m', node)
    decreases |updates|
  {
    if |updates| > 0 {
      var prefix := updates[..|updates| - 1];
      MatteLifecycle(m, node, matrix, mesh, mode, prefix);
      if updates[|updates| - 1].state.OtherState? {
        assert LastActing(updates) == LastActing(prefix);
        var i := LastActing(prefix);
        if 0 <= i {
          assert updates[i] == prefix[i];
        }
      }
    }
  }
}
