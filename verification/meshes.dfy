/**
  The render mesh the animation engine hands the viewer each frame
  (`aeMovieRenderMesh`), reduced to the fields the viewer reads.
 */
module Meshes {
  import opened Words
  import opened SimpleMath
  import opened ColorPacker

  /** The mesh's blend flag; only additive blending changes what the viewer does. */
  datatype MeshBlend = MeshBlendAdd | MeshBlendOther(code: nat)

  /**
    Positions, UVs and triangle indices of one mesh, with its flat colour,
    opacity and blend flag. The engine's `vertexCount` and `indexCount` are
    the lengths of the sequences.
   */
  datatype RenderMesh = RenderMesh(
    positions: seq<Vec3>,
    uvs: seq<Vec2>,
    indices: seq<U16>,
    color: Color,
    opacity: Channel,
    blend: MeshBlend)
  {
    function VertexCount(): nat {
      |positions|
    }

    function IndexCount(): nat {
      |indices|
    }

    /** One UV per vertex, as the engine guarantees. */
    predicate WellFormed() {
      |uvs| == |positions|
    }
  }
}
