/**
 * The SceneManager of src/manager/SceneManager.js: named scenes holding
 * meshes, named cameras each holding an orthographic viewport and the ids of
 * the scenes it shows, and a render pass that draws every attached scene
 * through every camera. Meshes are opaque handles; `renderer.render` appends
 * to the returned draw trace.
 */
module Scenes {
  import opened Wrappers
  import opened OrderedMap
  import CoreMath

  const DEFAULT_CAMERA_ID := "default_camera_id"
  const DEFAULT_SCENE_ID := "default_scene_id"

  /** The renderer's clear color when init receives a falsy one (opaque white). */
  const DEFAULT_CLEAR_COLOR := 0xFFFFFF

  /** The margin init subtracts from the inner window size. */
  const WINDOW_MARGIN: real := 20.0

  type Mesh = nat

  /** A THREE.Scene, reduced to the meshes added to it, in order. */
  datatype Scene = Scene(meshes: seq<Mesh>)

  /** A Camera2D: its viewport (left, right, top, bottom, near, far) and the ids of its scenes. */
  datatype Camera = Camera(left: real, right: real, top: real, bottom: real, near: real, far: real, scenes: seq<string>)

  /** One `renderer.render(scene, camera.cam)` call. */
  datatype Draw = Draw(camera: string, sceneId: string, meshes: seq<Mesh>)

  /** A falsy string argument (undefined, null or "") takes the default. */
  function IdOr(id: string, default: string): (r: string)
    ensures id != "" ==> r == id
    ensures id == "" ==> r == default
  {
    if id != "" then id else default
  }

  /** A falsy number argument (undefined, null or 0) takes the default. */
  function SizeOr(x: real, default: real): (r: real)
    ensures x != 0.0 ==> r == x
    ensures x == 0.0 ==> r == default
  {
    if x != 0.0 then x else default
  }

  /** The camera createCamera builds: a viewport centred on the origin, `width` wide and `height` high, showing one scene. */
  function NewCamera(width: real, height: real, sceneId: string): (c: Camera)
    ensures c.right - c.left == width && c.left == -c.right
    ensures c.top - c.bottom == height && c.bottom == -c.top
    ensures c.near == 1.0 && c.far >= width && c.far >= height && (c.far == width || c.far == height)
    ensures c.scenes == [sceneId]
  {
    Camera(width / -2.0, width / 2.0, height / 2.0, height / -2.0, 1.0, CoreMath.Max(width, height), [sceneId])
  }

  // -----------------------------------------------------------------------
  // The draw trace of a render pass

  /** The draws of one camera for the scene ids `ids`, skipping ids with no scene. */
  function SceneDraws(camera: string, ids: seq<string>, scenes: Entries<string, Scene>): seq<Draw>
  {
    if ids == [] then []
    else
      var id := ids[|ids| - 1];
      SceneDraws(camera, ids[..|ids| - 1], scenes)
        + match Get(scenes, id) case Some(s) => [Draw(camera, id, s.meshes)] case None => []
  }

  /** The draws of a render pass over the cameras `cams`, in camera order. */
  function Draws(cams: Entries<string, Camera>, scenes: Entries<string, Scene>): seq<Draw>
  {
    if cams == [] then []
    else
      var c := cams[|cams| - 1];
      Draws(cams[..|cams| - 1], scenes) + SceneDraws(c.0, c.1.scenes, scenes)
  }

  lemma SceneDrawsStep(camera: string, ids: seq<string>, j: nat, scenes: Entries<string, Scene>)
    requires j < |ids|
    ensures SceneDraws(camera, ids[..j + 1], scenes) == SceneDraws(camera, ids[..j], scenes)
      + match Get(scenes, ids[j]) case Some(s) => [Draw(camera, ids[j], s.meshes)] case None => []
  {
    assert ids[..j + 1][..j] == ids[..j];
  }

  lemma DrawsStep(cams: Entries<string, Camera>, i: nat, scenes: Entries<string, Scene>)
    requires i < |cams|
    ensures Draws(cams[..i + 1], scenes) == Draws(cams[..i], scenes) + SceneDraws(cams[i].0, cams[i].1.scenes, scenes)
  {
    assert cams[..i + 1][..i] == cams[..i];
  }

  /** The number of scene attachments over all cameras. */
  function Attachments(cams: Entries<string, Camera>): nat
  {
    if cams == [] then 0 else Attachments(cams[..|cams| - 1]) + |cams[|cams| - 1].1.scenes|
  }

  /** Every attached scene id names a registered scene. */
  predicate AllAttachedExist(cams: Entries<string, Camera>, scenes: Entries<string, Scene>)
  {
    forall i, k :: 0 <= i < |cams| && 0 <= k < |cams[i].1.scenes| ==> HasKey(scenes, cams[i].1.scenes[k])
  }

  /** A draw is sound when it draws a registered scene, with its current meshes, through a camera that shows it. */
  predicate SoundDraw(d: Draw, cams: Entries<string, Camera>, scenes: Entries<string, Scene>)
  {
    Get(scenes, d.sceneId) == Some(Scene(d.meshes))
    && exists i :: 0 <= i < |cams| && cams[i].0 == d.camera && d.sceneId in cams[i].1.scenes
  }

  lemma {:induction false} SceneDrawsSound(camera: string, ids: seq<string>, scenes: Entries<string, Scene>)
    ensures |SceneDraws(camera, ids, scenes)| <= |ids|
    ensures (forall k :: 0 <= k < |ids| ==> HasKey(scenes, ids[k])) ==> |SceneDraws(camera, ids, scenes)| == |ids|
    ensures forall d :: d in SceneDraws(camera, ids, scenes) ==>
      d.camera == camera && d.sceneId in ids && Get(scenes, d.sceneId) == Some(Scene(d.meshes))
  {
    if ids != [] {
      var init := ids[..|ids| - 1];
      SceneDrawsSound(camera, init, scenes);
      assert forall x :: x in init ==> x in ids;
    }
  }

  /**
   * A render pass draws only registered scenes, with their current meshes,
   * through cameras showing them; it issues at most one draw per attachment,
   * and exactly one per attachment when every attached scene exists.
   */
  lemma {:induction false} DrawsSound(cams: Entries<string, Camera>, scenes: Entries<string, Scene>)
    ensures |Draws(cams, scenes)| <= Attachments(cams)
    ensures AllAttachedExist(cams, scenes) ==> |Draws(cams, scenes)| == Attachments(cams)
    ensures forall d :: d in Draws(cams, scenes) ==> SoundDraw(d, cams, scenes)
  {
    if cams != [] {
      var init, c := cams[..|cams| - 1], cams[|cams| - 1];
      DrawsSound(init, scenes);
      SceneDrawsSound(c.0, c.1.scenes, scenes);
      if AllAttachedExist(cams, scenes) {
        assert AllAttachedExist(init, scenes) by {
          forall i, k | 0 <= i < |init| && 0 <= k < |init[i].1.scenes|
            ensures HasKey(scenes, init[i].1.scenes[k])
          {
            assert init[i] == cams[i];
          }
        }
        forall k | 0 <= k < |c.1.scenes|
          ensures HasKey(scenes, c.1.scenes[k])
        {
          assert c == cams[|cams| - 1];
        }
      }
      forall d | d in Draws(cams, scenes)
        ensures SoundDraw(d, cams, scenes)
      {
        if d in Draws(init, scenes) {
          var i :| 0 <= i < |init| && init[i].0 == d.camera && d.sceneId in init[i].1.scenes;
          assert cams[i] == init[i];
        } else {
          assert cams[|cams| - 1] == c;
        }
      }
    }
  }

  /** The number of ids in `ids` that name a registered scene. */
  function PresentIds(ids: seq<string>, scenes: Entries<string, Scene>): nat
  {
    if ids == [] then 0
    else PresentIds(ids[..|ids| - 1], scenes) + if HasKey(scenes, ids[|ids| - 1]) then 1 else 0
  }

  /** The number of attachments, over all cameras, whose scene is registered. */
  function Present(cams: Entries<string, Camera>, scenes: Entries<string, Scene>): nat
  {
    if cams == [] then 0 else Present(cams[..|cams| - 1], scenes) + PresentIds(cams[|cams| - 1].1.scenes, scenes)
  }

  /** One camera draws every attached id that names a registered scene, and nothing more. */
  lemma {:induction false} SceneDrawsComplete(camera: string, ids: seq<string>, scenes: Entries<string, Scene>)
    ensures |SceneDraws(camera, ids, scenes)| == PresentIds(ids, scenes)
    ensures forall k :: 0 <= k < |ids| && HasKey(scenes, ids[k]) ==>
      Draw(camera, ids[k], Get(scenes, ids[k]).value.meshes) in SceneDraws(camera, ids, scenes)
  {
    if ids != [] {
      var init := ids[..|ids| - 1];
      SceneDrawsComplete(camera, init, scenes);
      forall k | 0 <= k < |ids| && HasKey(scenes, ids[k])
        ensures Draw(camera, ids[k], Get(scenes, ids[k]).value.meshes) in SceneDraws(camera, ids, scenes)
      {
        if k < |init| {
          assert ids[k] == init[k];
        }
      }
    }
  }

  /**
   * A render pass is complete: every attachment whose scene is registered is
   * drawn through its camera with the scene's current meshes, and the pass
   * issues exactly as many draws as there are such attachments.
   */
  lemma {:induction false} DrawsComplete(cams: Entries<string, Camera>, scenes: Entries<string, Scene>)
    ensures |Draws(cams, scenes)| == Present(cams, scenes)
    ensures forall i, k :: 0 <= i < |cams| && 0 <= k < |cams[i].1.scenes| && HasKey(scenes, cams[i].1.scenes[k]) ==>
      Draw(cams[i].0, cams[i].1.scenes[k], Get(scenes, cams[i].1.scenes[k]).value.meshes) in Draws(cams, scenes)
  {
    if cams != [] {
      var init, c := cams[..|cams| - 1], cams[|cams| - 1];
      DrawsComplete(init, scenes);
      SceneDrawsComplete(c.0, c.1.scenes, scenes);
      forall i, k | 0 <= i < |cams| && 0 <= k < |cams[i].1.scenes| && HasKey(scenes, cams[i].1.scenes[k])
        ensures Draw(cams[i].0, cams[i].1.scenes[k], Get(scenes, cams[i].1.scenes[k]).value.meshes) in Draws(cams, scenes)
      {
        if i < |init| {
          assert cams[i] == init[i];
        } else {
          assert cams[i] == c;
        }
      }
    }
  }

  class SceneManager {
    var scenes: Entries<string, Scene>
    var cameras: Entries<string, Camera>
    var canvasWidth: real
    var canvasHeight: real
    var z: real
    var clearColor: int
    /** Whether `init` has run, and so whether `this.renderer` exists. */
    var initialized: bool

    /** new SceneManager(): no scenes, no cameras and no renderer yet. */
    constructor()
      ensures scenes == [] && cameras == [] && !initialized
    {
      scenes := [];
      cameras := [];
      canvasWidth, canvasHeight, z := 0.0, 0.0, 0.0;
      clearColor := 0;
      initialized := false;
    }

    /** createScene: registers an empty scene under the id (or the default id), replacing any scene there. */
    method CreateScene(sceneId: string)
      modifies this
      ensures scenes == Put(old(scenes), IdOr(sceneId, DEFAULT_SCENE_ID), Scene([]))
      ensures cameras == old(cameras) && canvasWidth == old(canvasWidth) && canvasHeight == old(canvasHeight)
      ensures z == old(z) && clearColor == old(clearColor) && initialized == old(initialized)
    {
      scenes := Put(scenes, if sceneId != "" then sceneId else DEFAULT_SCENE_ID, Scene([]));
    }

    /**
     * createCamera: when the scene exists, registers under the camera id (or
     * the default) a camera of the given size (falsy sizes take the canvas
     * size) showing that scene; when it does not, nothing changes.
     */
    method CreateCamera(cameraId: string, sceneId: string, width: real, height: real)
      modifies this
      ensures var sid := IdOr(sceneId, DEFAULT_SCENE_ID);
        Get(scenes, sid).None? ==> cameras == old(cameras)
      ensures var sid := IdOr(sceneId, DEFAULT_SCENE_ID);
        Get(scenes, sid).Some? ==> cameras == Put(old(cameras), IdOr(cameraId, DEFAULT_CAMERA_ID),
          NewCamera(SizeOr(width, canvasWidth), SizeOr(height, canvasHeight), sid))
      ensures scenes == old(scenes) && canvasWidth == old(canvasWidth) && canvasHeight == old(canvasHeight)
      ensures z == old(z) && clearColor == old(clearColor) && initialized == old(initialized)
    {
      var sid := if sceneId != "" then sceneId else DEFAULT_SCENE_ID;
      var scene := Get(scenes, sid);
      var cid := if cameraId != "" then cameraId else DEFAULT_CAMERA_ID;
      var w := if width != 0.0 then width else canvasWidth;
      var h := if height != 0.0 then height else canvasHeight;
      if scene.Some? {
        var camera := Camera(w / -2.0, w / 2.0, h / 2.0, h / -2.0, 1.0, CoreMath.Max(w, h), []);
        camera := camera.(scenes := camera.scenes + [sid]);
        assert camera == NewCamera(w, h, sid);
        cameras := Put(cameras, cid, camera);
      }
    }

    /**
     * init, without the DOM: the renderer now exists, falsy sizes take the
     * inner window size less the margin, z is the larger side, and the
     * default scene and camera are created.
     */
    method Init(bgcolor: int, width: real, height: real, innerWidth: real, innerHeight: real)
      modifies this
      ensures clearColor == if bgcolor != 0 then bgcolor else DEFAULT_CLEAR_COLOR
      ensures canvasWidth == SizeOr(width, innerWidth - WINDOW_MARGIN)
      ensures canvasHeight == SizeOr(height, innerHeight - WINDOW_MARGIN)
      ensures z >= canvasWidth && z >= canvasHeight && (z == canvasWidth || z == canvasHeight)
      ensures scenes == Put(old(scenes), DEFAULT_SCENE_ID, Scene([]))
      ensures cameras == Put(old(cameras), DEFAULT_CAMERA_ID, NewCamera(canvasWidth, canvasHeight, DEFAULT_SCENE_ID))
      ensures initialized
    {
      initialized := true;
      clearColor := if bgcolor != 0 then bgcolor else DEFAULT_CLEAR_COLOR;
      canvasWidth := if width != 0.0 then width else innerWidth - WINDOW_MARGIN;
      canvasHeight := if height != 0.0 then height else innerHeight - WINDOW_MARGIN;
      z := CoreMath.Max(canvasWidth, canvasHeight);
      CreateScene("");
      GetPutSame(old(scenes), DEFAULT_SCENE_ID, Scene([]));
      CreateCamera("", "", 0.0, 0.0);
    }

    /**
     * attachToScene: adds the meshes of the renderable components, in order,
     * to the scene (the default when the id is falsy); with no such scene the
     * first `scene.add` throws, so a non-empty list throws and changes nothing.
     */
    method AttachToScene(meshes: seq<Mesh>, sceneId: string) returns (thrown: bool)
      modifies this
      ensures var sid := IdOr(sceneId, DEFAULT_SCENE_ID);
        thrown <==> Get(old(scenes), sid).None? && meshes != []
      ensures var sid := IdOr(sceneId, DEFAULT_SCENE_ID);
        Get(old(scenes), sid).None? ==> scenes == old(scenes)
      ensures var sid := IdOr(sceneId, DEFAULT_SCENE_ID);
        Get(old(scenes), sid).Some? ==>
          scenes == Put(old(scenes), sid, Scene(Get(old(scenes), sid).value.meshes + meshes))
      ensures cameras == old(cameras) && canvasWidth == old(canvasWidth) && canvasHeight == old(canvasHeight)
      ensures z == old(z) && clearColor == old(clearColor) && initialized == old(initialized)
    {
      var sid := if sceneId != "" then sceneId else DEFAULT_SCENE_ID;
      var scene := Get(scenes, sid);
      if scene.None? {
        return meshes != [];
      }
      var added := scene.value.meshes;
      var i := 0;
      while i < |meshes|
        invariant i <= |meshes|
        invariant added == scene.value.meshes + meshes[..i]
        invariant scenes == old(scenes) && cameras == old(cameras)
      {
        added := added + [meshes[i]];
        i := i + 1;
      }
      assert meshes[..i] == meshes;
      scenes := Put(scenes, sid, Scene(added));
      return false;
    }

    /**
     * render: for each camera in registration order, for each of its scene
     * ids in attachment order, one draw of that scene when it exists. Before
     * init there is no renderer, so the first draw throws; a render pass
     * with nothing to draw does not touch the renderer and completes.
     */
    method Render() returns (draws: seq<Draw>, thrown: bool)
      ensures thrown <==> !initialized && Draws(cameras, scenes) != []
      ensures thrown ==> draws == []
      ensures !thrown ==> draws == Draws(cameras, scenes)
      ensures |draws| <= Attachments(cameras)
      ensures forall d :: d in draws ==> SoundDraw(d, cameras, scenes)
      ensures !thrown ==> |draws| == Present(cameras, scenes)
      ensures forall i, k :: !thrown && 0 <= i < |cameras| && 0 <= k < |cameras[i].1.scenes| && HasKey(scenes, cameras[i].1.scenes[k]) ==>
        Draw(cameras[i].0, cameras[i].1.scenes[k], Get(scenes, cameras[i].1.scenes[k]).value.meshes) in draws
    {
      thrown := false;
      draws := [];
      var i := 0;
      while i < |cameras|
        invariant i <= |cameras|
        invariant draws == Draws(cameras[..i], scenes)
        invariant !initialized ==> draws == []
      {
        var (cid, camera) := cameras[i];
        ghost var before := draws;
        var j := 0;
        while j < |camera.scenes|
          invariant j <= |camera.scenes|
          invariant draws == before + SceneDraws(cid, camera.scenes[..j], scenes)
          invariant !initialized ==> draws == []
        {
          var id := camera.scenes[j];
          var scene := Get(scenes, id);
          SceneDrawsStep(cid, camera.scenes, j, scenes);
          if scene.Some? {
            if !initialized {
              assert Draws(cameras, scenes) != [] by {
                assert cameras[i].0 == cid && cameras[i].1.scenes[j] == id;
                DrawsComplete(cameras, scenes);
              }
              return [], true;
            }
            draws := draws + [Draw(cid, id, scene.value.meshes)];
          }
          j := j + 1;
        }
        assert camera.scenes[..j] == camera.scenes;
        DrawsStep(cameras, i, scenes);
        assert draws == Draws(cameras[..i + 1], scenes);
        i := i + 1;
      }
      assert cameras[..i] == cameras;
      DrawsSound(cameras, scenes);
      DrawsComplete(cameras, scenes);
    }
  }
}
