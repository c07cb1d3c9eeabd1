/**
  The mesh batching renderer of `Composition`: a bounded vertex/index batch,
  the current GPU binding (RGB texture, alpha texture, blend mode), and the
  decision of when the batch must be flushed. GPU work is abstracted: a flush
  yields a `DrawEvent` describing the draw call(s) it would issue.
 */
module Batching {
  import opened Words
  import opened Wrappers
  import opened SimpleMath
  import opened Meshes
  import ColorPacker
  import opened ResourceManager

  const MaxVerticesToDraw: nat := 4 * 1024
  const MaxIndicesToDraw: nat := 6 * 1024

  /** Which of the two passes a flush runs. */
  datatype DrawMode = Solid | Wireframe | SolidWithWireOverlay

  datatype BlendMode = Alpha | PremultAlpha | Add

  /** `DrawVertex`: position, the colour/texture UV, the alpha/matte UV and the packed colour. */
  datatype DrawVertex = DrawVertex(pos: Vec3, uv0: Vec2, uv1: Vec2, color: U32)

  /** The GPU state a batch is drawn with. */
  datatype Binding = Binding(textureRGB: nat, textureA: nat, blend: BlendMode)

  /**
    The renderer's drawing state. The batch written so far is held as the
    vertex and index sequences, so the source's `mNumVertices` and
    `mNumIndices` are their lengths; `mapped` says whether the two GPU
    buffers are mapped for writing.
   */
  datatype Renderer = Renderer(
    binding: Binding,
    drawMode: DrawMode,
    mapped: bool,
    vertices: seq<DrawVertex>,
    indices: seq<U16>)
  {
    function NumVertices(): nat {
      |vertices|
    }

    function NumIndices(): nat {
      |indices|
    }

    predicate WithinCapacity() {
      NumVertices() <= MaxVerticesToDraw && NumIndices() <= MaxIndicesToDraw
    }

    predicate BatchEmpty() {
      NumVertices() == 0 && NumIndices() == 0
    }
  }

  /** The constructed `Composition`: no textures, alpha blending, solid mode, nothing mapped. */
  const NewRenderer: Renderer := Renderer(Binding(0, 0, Alpha), Solid, false, [], [])

  /**
    One flush as the GPU sees it: whether the filled pass and the wireframe
    pass run, the blend mode and the shader's premultiplied-alpha flag, the
    two bound textures, the `glDrawElements` index count and the buffer contents.
   */
  datatype DrawEvent = DrawEvent(
    solidPass: bool,
    wirePass: bool,
    blend: BlendMode,
    premultAlpha: bool,
    textureRGB: nat,
    textureA: nat,
    indexCount: nat,
    vertices: seq<DrawVertex>,
    indices: seq<U16>)

  /** The draw a non-empty batch turns into. */
  function DrawOf(mode: DrawMode, binding: Binding, vertices: seq<DrawVertex>, indices: seq<U16>): DrawEvent {
    DrawEvent(mode == Solid || mode == SolidWithWireOverlay,
              mode == Wireframe || mode == SolidWithWireOverlay,
              binding.blend,
              binding.blend == PremultAlpha,
              binding.textureRGB,
              binding.textureA,
              |indices|,
              vertices,
              indices)
  }

  /**
    `FlushDraw`: draws the batch if it holds any index, then empties it.
    The filled pass runs unless the mode is wireframe only, the wireframe
    pass unless the mode is solid only; the premultiplied flag is set
    exactly for premultiplied blending. The binding is kept.
   */
  function FlushDraw(st: Renderer): (r: (Renderer, seq<DrawEvent>))
    ensures r.0.binding == st.binding && r.0.drawMode == st.drawMode && r.0.mapped == st.mapped
    ensures r.0.BatchEmpty()
    ensures r.1 == [] <==> st.NumIndices() == 0
    ensures st.NumIndices() > 0 ==>
              && |r.1| == 1
              && (r.1[0].solidPass <==> st.drawMode != Wireframe)
              && (r.1[0].wirePass <==> st.drawMode != Solid)
              && (r.1[0].premultAlpha <==> st.binding.blend == PremultAlpha)
              && r.1[0].blend == st.binding.blend
              && r.1[0].textureRGB == st.binding.textureRGB && r.1[0].textureA == st.binding.textureA
              && r.1[0].indexCount == st.NumIndices()
              && r.1[0].vertices == st.vertices && r.1[0].indices == st.indices
  {
    var events := if st.NumIndices() > 0 then [DrawOf(st.drawMode, st.binding, st.vertices, st.indices)] else [];
    (st.(vertices := [], indices := []), events)
  }

  /** `BeginDraw`: maps the two buffers. Counts and binding are left as they are. */
  function BeginDraw(st: Renderer): (r: Renderer)
    ensures r.mapped
    ensures r.binding == st.binding && r.drawMode == st.drawMode && r.vertices == st.vertices && r.indices == st.indices
  {
    st.(mapped := true)
  }

  /**
    `EndDraw`: a last flush, then the buffers are unmapped. The pending
    batch is drawn exactly as `FlushDraw` draws it, in the current mode.
   */
  function EndDraw(st: Renderer): (r: (Renderer, seq<DrawEvent>))
    ensures !r.0.mapped && r.0.BatchEmpty() && r.0.binding == st.binding && r.0.drawMode == st.drawMode
    ensures r.1 == FlushDraw(st).1
    ensures st.NumIndices() == 0 ==> r.1 == []
  {
    var f := FlushDraw(st);
    (f.0.(mapped := false), f.1)
  }

  // ---------------------------------------------------------------------------
  // Submitting one mesh
  // ---------------------------------------------------------------------------

  /** A mesh the batch can take at all: one UV per vertex, and within the buffer sizes. */
  predicate Submittable(mesh: RenderMesh) {
    mesh.WellFormed() && mesh.VertexCount() <= MaxVerticesToDraw && mesh.IndexCount() <= MaxIndicesToDraw
  }

  /** The alternative UVs, when given, cover every vertex. */
  predicate AltUVsFit(mesh: RenderMesh, altUV: Option<seq<Vec2>>) {
    altUV.Some? ==> |altUV.value| == mesh.VertexCount()
  }

  /** The texture an image binds: its own when it has one, the white texture otherwise. */
  function TextureOf(white: nat, image: Option<Image>): nat {
    if image.Some? && image.value.textureRes.Some? then image.value.textureRes.value.texture else white
  }

  /**
    The binding a mesh asks for. Each texture is the image's own only when
    the image exists and has a texture, else the white fallback. The blend
    mode is Add for an additive mesh whatever the image says, otherwise
    PremultAlpha for an RGB image with premultiplied alpha, otherwise Alpha.
   */
  function BindingFor(white: nat, mesh: RenderMesh, imageRGB: Option<Image>, imageA: Option<Image>): (b: Binding)
    ensures imageRGB.Some? && imageRGB.value.textureRes.Some? ==> b.textureRGB == imageRGB.value.textureRes.value.texture
    ensures !(imageRGB.Some? && imageRGB.value.textureRes.Some?) ==> b.textureRGB == white
    ensures imageA.Some? && imageA.value.textureRes.Some? ==> b.textureA == imageA.value.textureRes.value.texture
    ensures !(imageA.Some? && imageA.value.textureRes.Some?) ==> b.textureA == white
    ensures b.blend == Add <==> mesh.blend == MeshBlendAdd
    ensures b.blend == PremultAlpha <==> mesh.blend != MeshBlendAdd && imageRGB.Some? && imageRGB.value.premultAlpha
    ensures b.blend == Alpha <==> mesh.blend != MeshBlendAdd && !(imageRGB.Some? && imageRGB.value.premultAlpha)
  {
    var blend :=
      if mesh.blend == MeshBlendAdd then Add
      else if imageRGB.Some? && imageRGB.value.premultAlpha then PremultAlpha
      else Alpha;
    Binding(TextureOf(white, imageRGB), TextureOf(white, imageA), blend)
  }

  /** The vertices a mesh writes: position copied, UVs chosen, colour packed. */
  function MeshVertices(mesh: RenderMesh, altUV: Option<seq<Vec2>>): (vs: seq<DrawVertex>)
    requires mesh.WellFormed() && AltUVsFit(mesh, altUV)
    ensures |vs| == mesh.VertexCount()
    ensures forall i :: 0 <= i < |vs| ==>
              && vs[i].pos == mesh.positions[i]
              && vs[i].uv0 == (if altUV.Some? then altUV.value[i] else mesh.uvs[i])
              && vs[i].uv1 == mesh.uvs[i]
              && vs[i].color == ColorPacker.FloatColorToUint(mesh.color, mesh.opacity)
  {
    var color := ColorPacker.FloatColorToUint(mesh.color, mesh.opacity);
    seq(mesh.VertexCount(), i requires 0 <= i < mesh.VertexCount() =>
      DrawVertex(mesh.positions[i],
                 if altUV.Some? then altUV.value[i] else mesh.uvs[i],
                 mesh.uvs[i],
                 color))
  }

  /** The indices a mesh writes into a batch already holding `base` vertices, cut to 16 bits. */
  function RebaseIndices(indices: seq<U16>, base: nat): (r: seq<U16>)
    ensures |r| == |indices|
    ensures forall i :: 0 <= i < |r| ==> r[i] as int == (indices[i] + base) % Two16
    ensures forall i :: 0 <= i < |r| && indices[i] + base < Two16 ==> r[i] == indices[i] + base
  {
    seq(|indices|, i requires 0 <= i < |indices| => (indices[i] + base) % Two16)
  }

  /**
    The flush test `DrawMesh` makes before appending: the mesh's vertices or
    indices exceed the room left in the buffers, or the mesh asks for a
    binding other than the current one.
   */
  predicate MustFlush(st: Renderer, mesh: RenderMesh, binding: Binding) {
    || mesh.VertexCount() > MaxVerticesToDraw - st.NumVertices()
    || mesh.IndexCount() > MaxIndicesToDraw - st.NumIndices()
    || binding != st.binding
  }

  /**
    The part of `DrawMesh` before its final flush. The batch is flushed first
    exactly when `MustFlush` holds; then the mesh's vertices follow the kept
    batch and its indices follow the kept indices, rebased by the kept vertex
    count, and the binding is the mesh's. The batch stays within capacity.
   */
  function Stage(st: Renderer, white: nat, mesh: RenderMesh, imageRGB: Option<Image>, imageA: Option<Image>,
                 altUV: Option<seq<Vec2>>): (r: (Renderer, seq<DrawEvent>))
    requires st.WithinCapacity() && Submittable(mesh) && AltUVsFit(mesh, altUV)
    ensures r.0.WithinCapacity()
    ensures r.0.binding == BindingFor(white, mesh, imageRGB, imageA)
    ensures r.0.drawMode == st.drawMode && r.0.mapped == st.mapped
    ensures var flush := MustFlush(st, mesh, BindingFor(white, mesh, imageRGB, imageA));
            var kept := if flush then 0 else st.NumVertices();
            && r.1 == (if flush then FlushDraw(st).1 else [])
            && r.0.vertices == (if flush then [] else st.vertices) + MeshVertices(mesh, altUV)
            && r.0.indices == (if flush then [] else st.indices) + RebaseIndices(mesh.indices, kept)
  {
    var binding := BindingFor(white, mesh, imageRGB, imageA);
    var before := if MustFlush(st, mesh, binding) then FlushDraw(st) else (st, []);
    var batch := before.0;
    (batch.(binding := binding,
            vertices := batch.vertices + MeshVertices(mesh, altUV),
            indices := batch.indices + RebaseIndices(mesh.indices, batch.NumVertices())),
     before.1)
  }

  /**
    `DrawMesh`: stage the mesh, then flush unconditionally, so the batch is
    always empty between two submissions and the binding is the mesh's.
   */
  function DrawMesh(st: Renderer, white: nat, mesh: RenderMesh, imageRGB: Option<Image>, imageA: Option<Image>,
                    altUV: Option<seq<Vec2>>): (r: (Renderer, seq<DrawEvent>))
    requires st.WithinCapacity() && Submittable(mesh) && AltUVsFit(mesh, altUV)
    ensures r.0.BatchEmpty()
    ensures r.0.binding == BindingFor(white, mesh, imageRGB, imageA)
    ensures r.0.drawMode == st.drawMode && r.0.mapped == st.mapped
    ensures st.BatchEmpty() ==>
              r.1 == ExpectedDraws(st.drawMode, BindingFor(white, mesh, imageRGB, imageA), mesh, altUV)
  {
    var staged := Stage(st, white, mesh, imageRGB, imageA, altUV);
    var flushed := FlushDraw(staged.0);
    if st.BatchEmpty() then
      SingleMeshBatch(st, white, mesh, imageRGB, imageA, altUV);
      (flushed.0, staged.1 + flushed.1)
    else
      (flushed.0, staged.1 + flushed.1)
  }

  /**
    The reference for one submission on an empty batch: nothing for a mesh
    without indices, otherwise one draw of exactly that mesh's vertices and
    its own indices with the mesh's binding.
   */
  function ExpectedDraws(mode: DrawMode, binding: Binding, mesh: RenderMesh, altUV: Option<seq<Vec2>>): seq<DrawEvent>
    requires mesh.WellFormed() && AltUVsFit(mesh, altUV)
  {
    if mesh.IndexCount() == 0 then [] else [DrawOf(mode, binding, MeshVertices(mesh, altUV), mesh.indices)]
  }

  /**
    A freshly constructed image (no texture yet, premultiplied alpha) draws
    with the white texture and, unless the mesh is additive, with
    premultiplied blending.
   */
  lemma NewImageBinding(white: nat, mesh: RenderMesh, imageA: Option<Image>)
    ensures var b := BindingFor(white, mesh, Some(NewImage), imageA);
            && b.textureRGB == white
            && (mesh.blend != MeshBlendAdd ==> b.blend == PremultAlpha)
            && (mesh.blend == MeshBlendAdd ==> b.blend == Add)
  {
  }

  /** On an empty batch, staging a mesh leaves exactly that mesh in the batch, indices unshifted. */
  lemma SingleMeshBatch(st: Renderer, white: nat, mesh: RenderMesh, imageRGB: Option<Image>, imageA: Option<Image>,
                        altUV: Option<seq<Vec2>>)
    requires st.BatchEmpty() && Submittable(mesh) && AltUVsFit(mesh, altUV)
    ensures var staged := Stage(st, white, mesh, imageRGB, imageA, altUV);
            && staged.1 == []
            && staged.0.vertices == MeshVertices(mesh, altUV)
            && staged.0.indices == mesh.indices
            && FlushDraw(staged.0).1 == ExpectedDraws(st.drawMode, BindingFor(white, mesh, imageRGB, imageA), mesh, altUV)
  {
    var staged := Stage(st, white, mesh, imageRGB, imageA, altUV);
    assert staged.0.vertices == MeshVertices(mesh, altUV);
    assert staged.0.indices == mesh.indices;
  }

  /**
    Flush on a binding change: on an empty batch, staging a mesh and then a
    mesh that asks for a different binding flushes exactly once, between the
    two, and that draw holds the first mesh's indices only.
   */
  lemma BindingChangeFlushes(st: Renderer, white: nat, m1: RenderMesh, rgb1: Option<Image>, a1: Option<Image>,
                             m2: RenderMesh, rgb2: Option<Image>, a2: Option<Image>)
    requires st.BatchEmpty() && Submittable(m1) && Submittable(m2)
    requires m1.IndexCount() > 0
    requires BindingFor(white, m1, rgb1, a1) != BindingFor(white, m2, rgb2, a2)
    ensures var s1 := Stage(st, white, m1, rgb1, a1, None);
            var s2 := Stage(s1.0, white, m2, rgb2, a2, None);
            && s1.1 == []
            && |s2.1| == 1
            && s2.1[0].indices == m1.indices
            && s2.1[0].vertices == MeshVertices(m1, None)
            && s2.0.vertices == MeshVertices(m2, None)
            && s2.0.indices == m2.indices
  {
    SingleMeshBatch(st, white, m1, rgb1, a1, None);
    var s1 := Stage(st, white, m1, rgb1, a1, None);
    var s2 := Stage(s1.0, white, m2, rgb2, a2, None);
    assert s2.0.vertices == MeshVertices(m2, None);
    assert s2.0.indices == m2.indices;
  }

  /**
    Flush on capacity: with `MaxVerticesToDraw - 2` vertices in the batch, a
    three-vertex mesh first flushes the batch, after which the batch holds
    that mesh's three vertices only.
   */
  lemma CapacityFlushes(st: Renderer, white: nat, mesh: RenderMesh, imageRGB: Option<Image>, imageA: Option<Image>)
    requires st.WithinCapacity() && Submittable(mesh)
    requires st.NumVertices() == MaxVerticesToDraw - 2 && st.NumIndices() > 0 && mesh.VertexCount() == 3
    ensures var s := Stage(st, white, mesh, imageRGB, imageA, None);
            && s.1 == FlushDraw(st).1
            && |s.1| == 1 && s.1[0].indices == st.indices
            && s.0.vertices == MeshVertices(mesh, None)
  {
    var s := Stage(st, white, mesh, imageRGB, imageA, None);
    assert s.0.vertices == MeshVertices(mesh, None);
  }

  /**
    Index rebasing: two meshes with the same binding that fit together share
    one batch; the second mesh's indices are shifted by the first mesh's
    vertex count, and indices valid for their own mesh stay valid for the
    combined vertex range.
   */
  lemma IndexRebasing(st: Renderer, white: nat, m1: RenderMesh, m2: RenderMesh, imageRGB: Option<Image>,
                      imageA: Option<Image>)
    requires st.BatchEmpty() && Submittable(m1) && Submittable(m2)
    requires m1.VertexCount() + m2.VertexCount() <= MaxVerticesToDraw
    requires m1.IndexCount() + m2.IndexCount() <= MaxIndicesToDraw
    requires m1.blend == m2.blend
    requires forall i :: 0 <= i < m1.IndexCount() ==> m1.indices[i] < m1.VertexCount()
    requires forall i :: 0 <= i < m2.IndexCount() ==> m2.indices[i] < m2.VertexCount()
    ensures var s1 := Stage(st, white, m1, imageRGB, imageA, None);
            var s2 := Stage(s1.0, white, m2, imageRGB, imageA, None);
            && s2.1 == []
            && s2.0.vertices == MeshVertices(m1, None) + MeshVertices(m2, None)
            && s2.0.indices == m1.indices + RebaseIndices(m2.indices, m1.VertexCount())
            && (forall i :: 0 <= i < m2.IndexCount() ==> s2.0.indices[m1.IndexCount() + i] == m2.indices[i] + m1.VertexCount())
            && (forall i :: 0 <= i < s2.0.NumIndices() ==> s2.0.indices[i] < s2.0.NumVertices())
  {
    SingleMeshBatch(st, white, m1, imageRGB, imageA, None);
    var s1 := Stage(st, white, m1, imageRGB, imageA, None);
    var s2 := Stage(s1.0, white, m2, imageRGB, imageA, None);
    assert s2.0.vertices == MeshVertices(m1, None) + MeshVertices(m2, None);
    assert s2.0.indices == m1.indices + RebaseIndices(m2.indices, m1.VertexCount());
    RebasedInRange(m1.indices, m1.VertexCount(), m2.indices, m2.VertexCount());
  }

  /** Indices valid for two vertex ranges stay valid for the joined range once the second set is rebased. */
  lemma RebasedInRange(first: seq<U16>, n1: nat, second: seq<U16>, n2: nat)
    requires n1 + n2 <= Two16
    requires forall i :: 0 <= i < |first| ==> first[i] < n1
    requires forall i :: 0 <= i < |second| ==> second[i] < n2
    ensures forall i :: 0 <= i < |first| + |second| ==> (first + RebaseIndices(second, n1))[i] < n1 + n2
  {
    var joined := first + RebaseIndices(second, n1);
    forall i | 0 <= i < |joined|
      ensures joined[i] < n1 + n2
    {
      if i >= |first| {
        assert joined[i] == RebaseIndices(second, n1)[i - |first|];
      }
    }
  }
}
