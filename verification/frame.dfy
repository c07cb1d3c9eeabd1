/**
  `Composition::Draw`: one frame of the composition. The engine hands out the
  frame's render meshes in order; each is dispatched on its layer type and on
  whether it carries a track matte, and submitted to the batching renderer.
 */
module Frame {
  import opened Wrappers
  import opened SimpleMath
  import opened Meshes
  import opened TrackMatte
  import opened ResourceManager
  import opened Batching

  /** The static scratch buffer for projected UVs holds 1024 floats, two per vertex. */
  const MaxMatteVertices: nat := 1024 / 2

  /** The engine's layer types that `Draw` distinguishes; every other type is ignored. */
  datatype LayerType = LayerShape | LayerSolid | LayerSequence | LayerImage | LayerOther(code: nat)

  /**
    One render mesh of the frame: its layer type and geometry, the image the
    layer draws (`resource_data`), the element image of a matted layer
    (`element_data`), and the track matte, if the layer has one.
   */
  datatype FrameMesh = FrameMesh(
    layerType: LayerType,
    mesh: RenderMesh,
    resource: Option<Image>,
    element: Option<Image>,
    trackMatte: Option<TrackMatteDesc>)

  /** The arguments of one `DrawMesh` call. */
  datatype Submission = Submission(mesh: RenderMesh, imageRGB: Option<Image>, imageA: Option<Image>,
                                   altUV: Option<seq<Vec2>>)

  predicate IsImageLayer(t: LayerType) {
    t.LayerSequence? || t.LayerImage?
  }

  /** The base mesh's first three vertices span a triangle UVs can be projected from. */
  predicate CanProject(base: RenderMesh) {
    && base.WellFormed()
    && base.VertexCount() >= 3
    && Det(base.positions[0].XY(), base.positions[1].XY(), base.positions[2].XY()) != 0.0
  }

  /**
    The UVs of the matte's vertices: each matte position projected through
    the affine map from the base mesh's first triangle to that triangle's UVs:
    every matte vertex gets the UV with the affine coordinates it has in the
    base triangle, and one that sits on a base corner gets that corner's UV.
   */
  function MatteUVs(base: RenderMesh, matte: RenderMesh): (uvs: seq<Vec2>)
    requires CanProject(base)
    ensures |uvs| == matte.VertexCount()
    ensures var a, b, c := base.positions[0].XY(), base.positions[1].XY(), base.positions[2].XY();
            forall i :: 0 <= i < |uvs| ==>
              var st := Coordinates(a, b, c, matte.positions[i].XY());
              uvs[i] == AffineUV(base.uvs[0], base.uvs[1], base.uvs[2], st.x, st.y)
    ensures forall i, j :: 0 <= i < |uvs| && 0 <= j < 3 && matte.positions[i].XY() == base.positions[j].XY() ==>
              uvs[i] == base.uvs[j]
  {
    var a, b, c := base.positions[0].XY(), base.positions[1].XY(), base.positions[2].XY();
    ProjectorAtCorners(a, b, c, base.uvs[0], base.uvs[1], base.uvs[2]);
    seq(matte.VertexCount(), i requires 0 <= i < matte.VertexCount() =>
      CalcPointUV(a, b, c, base.uvs[0], base.uvs[1], base.uvs[2], matte.positions[i].XY()))
  }

  /** Whether the mesh is drawn at all, following the two `switch` statements of `Draw`. */
  predicate Submits(fm: FrameMesh) {
    if fm.trackMatte.None? then
      (fm.layerType.LayerShape? || fm.layerType.LayerSolid? || IsImageLayer(fm.layerType))
      && fm.mesh.VertexCount() > 0 && fm.mesh.IndexCount() > 0
    else
      IsImageLayer(fm.layerType) && fm.element.Some? && fm.mesh.VertexCount() > 0
  }

  /**
    What `Draw` needs of a mesh it submits: a plain mesh must fit the batch;
    for a matted one the base mesh must span a triangle, and the matte mesh
    must fit the batch and the UV scratch buffer.
   */
  predicate Ready(fm: FrameMesh) {
    Submits(fm) ==>
      if fm.trackMatte.None? then Submittable(fm.mesh)
      else CanProject(fm.mesh) && Submittable(fm.trackMatte.value.mesh)
           && fm.trackMatte.value.mesh.VertexCount() <= MaxMatteVertices
  }

  /**
    The `DrawMesh` call a mesh makes, if any. Shapes and solids draw with no
    image; sequences and images with their resource as the RGB image. A
    matted sequence or image draws the matte's mesh instead, with the element
    image as RGB, the layer's resource as alpha, and the projected UVs.
   */
  function SubmissionOf(fm: FrameMesh): (s: Option<Submission>)
    requires Ready(fm)
    ensures s.Some? <==> Submits(fm)
    ensures s.Some? ==> Submittable(s.value.mesh) && AltUVsFit(s.value.mesh, s.value.altUV)
    ensures s.Some? && fm.trackMatte.None? ==> s.value.mesh == fm.mesh && s.value.altUV.None? && s.value.imageA.None?
    ensures s.Some? && fm.trackMatte.Some? ==>
              && s.value.mesh == fm.trackMatte.value.mesh
              && s.value.imageRGB == fm.element && s.value.imageA == fm.resource
              && s.value.altUV == Some(MatteUVs(fm.mesh, fm.trackMatte.value.mesh))
    ensures s.Some? && fm.trackMatte.None? ==> s.value.imageRGB == (if IsImageLayer(fm.layerType) then fm.resource else None)
  {
    if !Submits(fm) then None
    else if fm.trackMatte.None? then
      if IsImageLayer(fm.layerType) then Some(Submission(fm.mesh, fm.resource, None, None))
      else Some(Submission(fm.mesh, None, None, None))
    else
      var matte := fm.trackMatte.value.mesh;
      Some(Submission(matte, fm.element, fm.resource, Some(MatteUVs(fm.mesh, matte))))
  }

  /** The meshes of a frame in order, each handled as the loop body of `Draw` does. */
  function DrawAll(st: Renderer, white: nat, frame: seq<FrameMesh>): (r: (Renderer, seq<DrawEvent>))
    requires st.WithinCapacity()
    requires forall i :: 0 <= i < |frame| ==> Ready(frame[i])
    ensures r.0.WithinCapacity()
    ensures r.0.drawMode == st.drawMode && r.0.mapped == st.mapped
    ensures st.BatchEmpty() ==> r.0.BatchEmpty() && r.1 == ExpectedEvents(white, st.drawMode, Submissions(frame))
    ensures Submissions(frame) == [] ==> r == (st, [])
    decreases |frame|
  {
    if |frame| == 0 then (st, [])
    else
      var here := SubmissionOf(frame[0]);
      var first := if here.Some? then DrawMesh(st, white, here.value.mesh, here.value.imageRGB, here.value.imageA, here.value.altUV) else (st, []);
      var rest := DrawAll(first.0, white, frame[1..]);
      if here.Some? then
        ExpectedEventsCons(white, st.drawMode, here.value, Submissions(frame[1..]));
        (rest.0, first.1 + rest.1)
      else
        assert Submissions(frame) == Submissions(frame[1..]);
        (rest.0, first.1 + rest.1)
  }

  /** The reference: the submissions of a frame, in order. */
  function Submissions(frame: seq<FrameMesh>): (subs: seq<Submission>)
    requires forall i :: 0 <= i < |frame| ==> Ready(frame[i])
    ensures forall k :: 0 <= k < |subs| ==> Submittable(subs[k].mesh) && AltUVsFit(subs[k].mesh, subs[k].altUV)
    decreases |frame|
  {
    if |frame| == 0 then []
    else
      var here := SubmissionOf(frame[0]);
      (if here.Some? then [here.value] else []) + Submissions(frame[1..])
  }

  /** The reference: one draw per submission with indices, with the binding that submission asks for. */
  function ExpectedEvents(white: nat, mode: DrawMode, subs: seq<Submission>): seq<DrawEvent>
    requires forall k :: 0 <= k < |subs| ==> Submittable(subs[k].mesh) && AltUVsFit(subs[k].mesh, subs[k].altUV)
    decreases |subs|
  {
    if |subs| == 0 then []
    else
      var s := subs[0];
      assert Submittable(s.mesh) && AltUVsFit(s.mesh, s.altUV);
      ExpectedDraws(mode, BindingFor(white, s.mesh, s.imageRGB, s.imageA), s.mesh, s.altUV)
        + ExpectedEvents(white, mode, subs[1..])
  }

  lemma ExpectedEventsCons(white: nat, mode: DrawMode, s: Submission, subs: seq<Submission>)
    requires Submittable(s.mesh) && AltUVsFit(s.mesh, s.altUV)
    requires forall k :: 0 <= k < |subs| ==> Submittable(subs[k].mesh) && AltUVsFit(subs[k].mesh, subs[k].altUV)
    ensures ExpectedEvents(white, mode, [s] + subs)
         == ExpectedDraws(mode, BindingFor(white, s.mesh, s.imageRGB, s.imageA), s.mesh, s.altUV)
            + ExpectedEvents(white, mode, subs)
  {
    assert ([s] + subs)[1..] == subs;
  }

  /**
    `Draw`: set the mode, map the buffers, submit every mesh of the frame,
    and flush and unmap at the end. Afterwards the batch is empty, the
    buffers are unmapped and the mode is the one asked for; starting from an
    empty batch, the frame issues exactly one draw per submitted mesh that
    has indices, in order, each drawn in the requested mode.
   */
  function Draw(st: Renderer, white: nat, mode: DrawMode, frame: seq<FrameMesh>): (r: (Renderer, seq<DrawEvent>))
    requires st.WithinCapacity()
    requires forall i :: 0 <= i < |frame| ==> Ready(frame[i])
    ensures r.0.BatchEmpty() && !r.0.mapped && r.0.drawMode == mode
    ensures st.BatchEmpty() ==> r.1 == ExpectedEvents(white, mode, Submissions(frame))
    ensures Submissions(frame) == [] ==> r.0.binding == st.binding
  {
    var begun := BeginDraw(st.(drawMode := mode));
    var body := DrawAll(begun, white, frame);
    var end := EndDraw(body.0);
    (end.0, body.1 + end.1)
  }

  /**
    The constructed renderer holds an empty batch, so the very first frame it
    draws issues exactly the reference draws of that frame's submissions, and
    a frame that submits nothing leaves its initial (untextured, alpha) binding.
   */
  lemma FirstFrame(white: nat, mode: DrawMode, frame: seq<FrameMesh>)
    requires forall i :: 0 <= i < |frame| ==> Ready(frame[i])
    ensures var r := Draw(NewRenderer, white, mode, frame);
            && r.1 == ExpectedEvents(white, mode, Submissions(frame))
            && (Submissions(frame) == [] ==> r.0.binding == Binding(0, 0, Alpha))
  {
  }

  /** Every draw of a frame that starts on an empty batch runs the passes its mode asks for. */
  lemma {:induction false} EventsFollowMode(white: nat, mode: DrawMode, subs: seq<Submission>)
    requires forall k :: 0 <= k < |subs| ==> Submittable(subs[k].mesh) && AltUVsFit(subs[k].mesh, subs[k].altUV)
    ensures forall e :: e in ExpectedEvents(white, mode, subs) ==>
              (e.solidPass <==> mode != Wireframe) && (e.wirePass <==> mode != Solid) && e.indexCount > 0
    decreases |subs|
  {
    if |subs| > 0 {
      EventsFollowMode(white, mode, subs[1..]);
    }
  }

  /**
    A frame with one untextured, non-additive solid quad (four vertices, six indices) issues one draw, bound to the
    white texture twice, with alpha blending, four vertices and six indices.
   */
  lemma SolidQuadFrame(st: Renderer, white: nat, mode: DrawMode, quad: RenderMesh)
    requires st.WithinCapacity() && st.BatchEmpty()
    requires quad.WellFormed() && quad.VertexCount() == 4 && quad.IndexCount() == 6 && quad.blend != MeshBlendAdd
    ensures var frame := [FrameMesh(LayerSolid, quad, None, None, None)];
            var r := Draw(st, white, mode, frame);
            && |r.1| == 1
            && r.1[0].textureRGB == white && r.1[0].textureA == white
            && r.1[0].blend == Alpha && !r.1[0].premultAlpha
            && |r.1[0].vertices| == 4 && r.1[0].indexCount == 6
  {
    var frame := [FrameMesh(LayerSolid, quad, None, None, None)];
    assert Submissions(frame) == [Submission(quad, None, None, None)] by {
      assert frame[1..] == [];
    }
    assert ExpectedEvents(white, mode, [Submission(quad, None, None, None)])
        == ExpectedDraws(mode, BindingFor(white, quad, None, None), quad, None) + ExpectedEvents(white, mode, []);
  }
}
