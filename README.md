# three-object-visualizer: the loader and the interaction modes, in Dafny

This project models the two pieces of logic inside the browser viewer that are more than glue.

**The model loader** (`Loader`):
- It picks the root file out of a dropped file map. A `forEach` scan tests each file name against three suffix groups, and the last match wins.
- It switches on the remembered file type to choose a pipeline.
- In the glTF/GLB and FBX pipelines, it installs a URL modifier. The modifier turns each relative reference into a lookup key and redirects hits to freshly minted object URLs, which it records in `blobURLs`.
- In the success callbacks:
  - it revokes those object URLs;
  - for FBX, it forces the single material of each mesh opaque and scales the object by 0.01; a mesh whose `material` is an array gets the flag set on the array object, so the materials in it keep their own;
  - for glTF, it picks the scene and the animation clips.

**The interaction-mode machine of `SceneManager.createScene`**:
- `KeyQ` toggles between moving the object with a transform gizmo and orbiting the camera.
- `KeyG` and `KeyR` pick the gizmo's translate and rotate sub-modes.
- `resetPosition` puts the object back at the origin and lifts it by the negated lowest y of its bounding box.

Files:
- `wrappers.dfy`: `Option`.
- `js_strings.dfy`: the JavaScript string operations used:
  - `indexOf`;
  - `replace` with a string pattern, which cuts out the first occurrence;
  - the anchored `replace(/^(\.?\/)/, "")`.
- `blob_urls.dfy`: the browser's object-URL store. `URL.createObjectURL` mints a handle never issued before; `URL.revokeObjectURL` drops it.
- `three.dfy`: the few three.js objects touched: positions, scales, materials, bounding boxes and scene nodes.
- `loader.dfy`: `Loader` and its pipelines, and the URL modifier as a class holding its `blobURLs` array.
- `scene_manager.dfy`: the interaction controller as a class over a pure state machine, and `resetPosition`.

How the main parts are specified:
- **URL resolution.** `ResolveAll` runs the parser's references through the modifier one by one. It is proved against two specification functions:
  - `Rewrites` gives the answers;
  - `LiveAfter` gives the store's contents.
- **Handle lemmas.** Lemmas about those two functions show three things:
  - every answer fits its reference;
  - the recorded handles are the consecutive fresh ones;
  - each handle exposes the right file.
- **Callbacks.** The pipelines build on this and prove what the success callback leaves behind.

## Model

| member | source | states |
|---|---|---|
| Loader.Classify | src/js/loader.js:19-33 | A name gets GLB exactly when it ends in `.gltf` or `.glb`, OBJ exactly when it ends in `.obj`, `.mtl` or `.png`, FBX exactly when it ends in `.fbx`; otherwise no type |
| Loader.SuffixGroupsDisjoint | src/js/loader.js:19-33 | No file name matches two of the three suffix groups, so each entry makes at most one assignment |
| Loader.LastRootNone | src/js/loader.js:18-34 | Nothing is selected exactly when no entry's name matches any group |
| Loader.LastRootAt | src/js/loader.js:18-34 | A matching entry that no later entry overrides supplies the selected file, root path and type |
| Loader.LastRootIsLastMatch | src/js/loader.js:18-34 | Whatever is selected comes from a matching entry with no later match |
| Loader.LastRootSnoc | src/js/loader.js:18-34 | One more entry of the scan replaces the selection exactly when its name matches a group |
| Loader.RootPathCutsFirstOccurrence | src/js/loader.js:21 | When the file name already occurs in the directory part of the key (`p + name + q + name`), that occurrence is cut and the root path comes out as `p + q + name`, not the directory |
| Loader.Loader.constructor | src/js/loader.js:10-13 | A fresh loader's file type is GLB |
| Loader.Loader.Load | src/js/loader.js:15-36 | The scan leaves the last matching entry's type in `filetype` and dispatches on it with that entry's root path and a fresh object URL for its file; with no match, `filetype` keeps its previous value and `view` fails on the undefined root file without touching the store |
| Loader.Loader.Scan | src/js/loader.js:16-34 | The loop leaves `rootFile`, `rootPath` and `filetype` as the last matching entry sets them, and with no match leaves both undefined and `filetype` as it was |
| Loader.Loader.View | src/js/loader.js:38-53 | `undefined` fails in `createObjectURL`; a string is used as is; a file gets a freshly minted object URL; the pipeline follows `filetype` |
| JsStrings.IndexOfFromSpec | src/js/loader.js:21 | Searching from k finds the first occurrence at or after k, or reports that there is none |
| JsStrings.IndexOfSpec | src/js/loader.js:21 | `indexOf` finds the first occurrence, and finds none exactly when the pattern does not occur |
| JsStrings.RemoveFirstSpec | src/js/loader.js:21 | `replace` with a string pattern leaves a string without an occurrence unchanged and otherwise cuts out exactly the first occurrence |
| JsStrings.RemoveFirstAt | src/js/loader.js:21 | When the pattern first occurs right after `before`, cutting it out joins `before` and what follows |
| JsStrings.RemoveFirstOfTrailingName | src/js/loader.js:21 | For a key `dir + name` with no earlier occurrence of `name`, the root path is `dir` |
| JsStrings.StripDotSlashSpec | src/js/loader.js:66 | `replace(/^(\.?\/)/, "")` drops at most one leading `./` or `/`, and changes nothing exactly when there is neither |
| JsStrings.RemoveFirstOfPrefix | src/js/loader.js:65 | Removing a string's own prefix leaves the rest |
| Loader.NormalizedKeyShape | src/js/loader.js:62-66 | The lookup key starts with the root path and is at most as long as the root path plus the decoded URL |
| Loader.KeyOfBaseRelative | src/js/loader.js:62-66 | A decoded URL `baseURL + "./" + rest` or `baseURL + "/" + rest` gives the key `rootPath + rest`, and `baseURL + rest` does too when `rest` has no leading `./` or `/` |
| Loader.KeyOfBasePlus | src/js/loader.js:121-125 | The key of `baseURL + tail` is the root path plus `tail` with one leading `./` or `/` stripped |
| Loader.KeyWithoutBase | src/js/loader.js:62-66 | A decoded URL that does not contain the base URL only loses one leading `./` or `/` |
| Loader.FindFileSpec | src/js/loader.js:68-69 | The asset map misses exactly when no entry has the key; a hit is the file of an entry with that key, and with unique keys it is that entry's file |
| Loader.TargetsAt | src/js/loader.js:62-69 | The i-th target of a run of references is the lookup of the i-th reference's URL |
| Loader.UrlModifier.constructor | src/js/loader.js:61-80 | A new modifier starts with an empty `blobURLs` and looks URLs up by the key normalisation over its asset map |
| Loader.UrlModifier.Modify | src/js/loader.js:61-76 | On a hit, it returns a handle not live before and not yet recorded, appends exactly that handle to `blobURLs` and binds it to the found file; on a miss, it returns `(path \|\| "") + url` from the undecoded URL and changes nothing |
| Loader.ResolveAll | src/js/loader.js:120-135 | After the parser's run of references, the answers, the recorded handles and the store's live handles are those given by `Rewrites`, `Minted` and `LiveAfter` over the references' targets |
| Loader.ResolveNext | src/js/loader.js:61-76 | Answering the k-th reference extends the answers, the recorded handles and the store's bindings by exactly that reference's answer |
| Loader.Targets | src/js/loader.js:68 | There is one target per reference |
| Loader.Rewrites | src/js/loader.js:68-75 | There is one answer per reference |
| Loader.RewritesFit | src/js/loader.js:68-75 | Every answer is an object URL when its reference hits, and `(path \|\| "") + url` when it misses |
| Loader.RewritesMinted | src/js/loader.js:70-71 | The recorded handles are the store's next handles, in order, and no answer names a later one |
| Loader.ConsecutiveDistinct | src/js/loader.js:70-71 | Consecutively minted handles are pairwise distinct, and all of them are new since the load began |
| Loader.RewritesKeys | src/js/loader.js:129-130 | The modifier adds exactly the recorded handles to the store and leaves the files of earlier handles alone |
| Loader.RewritesExpose | src/js/loader.js:127-131 | Each object URL handed out exposes the file its reference resolved to |
| Loader.Loader.ResolveReferences | src/js/loader.js:55-80 | What the parser gets back through a fresh modifier: answers fitting each reference, consecutive distinct fresh handles in `blobURLs`, each exposing its reference's file, and no other change to the store |
| Loader.RevokeEach | src/js/loader.js:104 | `blobURLs.forEach(URL.revokeObjectURL)` revokes each recorded handle once, in order, and removes exactly those handles |
| Loader.ReleaseRestores | src/js/loader.js:157 | Revoking every handle minted since the load began gives back exactly the live handles from before the load |
| Loader.ReleaseAll | src/js/loader.js:104 | After the revocation the store's live handles are those from before the load, and the revocation log grows by `blobURLs` |
| Loader.Loader.LoadGlb | src/js/loader.js:55-112 | The references are rewritten as `ResolveReferences` states. When the parser succeeds and the callback reaches line 104, the scene and clips are picked, the scene's first child is repositioned, and every handle of this load is revoked, restoring the live handles. When the parser fails, or the callback throws first (no scene, no first child, or an unreadable bounding box), nothing is revoked; in the last case the first child is left at the origin |
| Loader.GlbLoaded | src/js/loader.js:84-107 | The GLB callback picks the scene and clips, repositions the scene's first child, and revokes every handle of the load so the live handles are those from before it; with no scene, no first child or an unreadable `yDiff` it stops before the revocation and the store is unchanged, and in the last case the first child is left at the origin |
| Loader.ForceOpaque | src/js/loader.js:144-150 | After the traversal every visited mesh whose `material` is a single material has it with `transparent == false`; only those materials are written to, so a material reached only through a material array keeps its flag |
| Loader.PrepareFbx | src/js/loader.js:144-151 | The visited meshes' single materials are made opaque, materials held only in arrays keep their flag, and the object's scale is 0.01 on all three axes |
| Loader.Loader.LoadFbx | src/js/loader.js:114-165 | The references are rewritten as in `loadGLB`. On success the meshes' single materials are opaque (those only in arrays are untouched), the scale is 0.01 and the object is repositioned; if its `yDiff` can be read, every handle of this load is revoked, restoring the live handles. If `yDiff` throws, the object is left at the origin and nothing is revoked; on `reject` nothing is revoked either |
| Loader.FbxLoaded | src/js/loader.js:143-157 | The FBX callback makes the visited meshes' single materials opaque and leaves materials held only in arrays alone, scales the object by 0.01 and repositions it. Unless `yDiff` throws, it revokes every handle of the load, restoring the live handles; if it throws, the object stays at the origin and the store is unchanged |
| BlobUrls.ObjectUrlStore.constructor | src/js/loader.js:40 | The store starts empty, with nothing minted or revoked |
| BlobUrls.ObjectUrlStore.Create | src/js/loader.js:70 | `URL.createObjectURL` mints a handle never issued before and binds it to the file |
| BlobUrls.ObjectUrlStore.Revoke | src/js/loader.js:104 | `URL.revokeObjectURL` unbinds exactly that handle and logs the revocation |
| SceneManager.InitialCoherent | src/js/scene-manager.js:14 | The initial state is TRANSFORM with orbiting off and the label "Transform", and it is coherent |
| SceneManager.InteractionController.constructor | src/js/scene-manager.js:43-47 | The controller starts in the initial state: TRANSFORM, gizmo enabled in translate mode, orbiting disabled, label "Transform" |
| SceneManager.Switched | src/js/scene-manager.js:91-107 | A switch flips the mode, keeps the gizmo mode, and leaves both flags and the label in step with the new mode |
| SceneManager.SwitchFromTransform | src/js/scene-manager.js:100-105 | Switching from TRANSFORM enables orbiting, disables the gizmo, moves to ORBIT and shows "Orbit", and changes nothing else |
| SceneManager.SwitchFromOrbit | src/js/scene-manager.js:93-98 | Switching from ORBIT disables orbiting, enables the gizmo, moves to TRANSFORM and shows "Transform", and changes nothing else |
| SceneManager.SwitchTwice | src/js/scene-manager.js:91-107 | Two switches in a row restore the mode, both flags and the label |
| SceneManager.InteractionController.SwitchControls | src/js/scene-manager.js:91-107 | The controller's new state is the switched state, and it stays coherent |
| SceneManager.GizmoKeys | src/js/scene-manager.js:75-85 | `KeyG` and `KeyR` set the gizmo to translate or rotate in either mode without touching the mode, the flags or the label; other keys than G, R and Q change nothing |
| SceneManager.OnKeyCoherent | src/js/scene-manager.js:74-86 | Every key keeps the flags and the label in step with the mode |
| SceneManager.InteractionController.OnKeyDown | src/js/scene-manager.js:74-86 | The listener's new state is the key's transition from the old one, and the controller stays coherent |
| SceneManager.AfterKeysCoherent | src/js/scene-manager.js:93-105 | After any run of keys from a coherent state, `orbit.enabled` holds iff the mode is ORBIT, `controls.enabled` iff it is TRANSFORM, and the label matches |
| SceneManager.ModeParity | src/js/scene-manager.js:82-84 | After a run of keys the mode is flipped exactly when `KeyQ` came an odd number of times |
| SceneManager.InitialAfterKeys | src/js/scene-manager.js:89 | From the initial state, orbiting is on exactly after an odd number of `KeyQ` presses, and the gizmo exactly after an even number |
| SceneManager.YDiffChoice | src/js/scene-manager.js:138-140 | `yDiff` is the object's own minimum y when that is a non-zero number, the first child's when the own one is undefined or 0, and an error when reading either one throws |
| SceneManager.ZeroMinimumWithoutChildren | src/js/scene-manager.js:138-141 | An object whose own minimum y is exactly 0 and which has no children gets `undefined` for `yDiff`, so its y becomes `NaN` |
| SceneManager.ResetPosition | src/js/scene-manager.js:136-142 | The object is first reset to the origin; if `yDiff` throws it stays there, else it is placed at `(0, -yDiff, 0)`; the scale is untouched |

## Left out

- The module-global `LoadingManager` (`MANAGER`), whose URL modifier each load overwrites. It matters only when loads interleave. The model gives each load its own modifier object.
- The three.js parsers `GLTFLoader` and `FBXLoader` are foreign code, and so is their asynchrony. A pipeline is instead given two parameters:
  - the references the parser asks the modifier about, in order;
  - whether the parser called the success callback or `reject`.
- `decodeURI` is a parameter, and so is `LoaderUtils.extractUrlBase`, whose result arrives as `baseURL`.
- Loader.UrlModifier.Modify: `decodeURI` throwing `URIError` on a malformed escape sequence (loader.js lines 64 and 123) is not modelled. The decoder is a total function, so the model always returns an answer where the source would throw inside the parser.
- Loader.Loader.Load ends in a `Dispatch` value naming the pipeline, the root URL, the root path and the file map. `LoadGlb` and `LoadFbx` are not called from it: they take those values as parameters, because the asynchronous parser that runs between the two is foreign code.
- `Object3D.traverse`: the nodes it visits are a parameter, in visiting order.
- `loadOBJ` is empty, so the OBJ pipeline is only a dispatch target.
- Promise results are not modelled:
  - The value the GLB promise settles with is not modelled.
  - `resolve(fbx)` names an undefined variable; what it raises, after the revocation, is not modelled.
  - The "no scene" error of `loadGLB` cannot be reached, because `objects.children[0]` is read before the `!objects` test. The model states only that the callback stops before the revocation; it does not say which error is raised.
- `createScene` is kept only for its `resetPosition` call and its interaction state. The renderer, camera, lights, floor plane, animation loop, export button and DOM visibility toggles are left out, and so are `scene.add` and `controls.attach`.
- Listener accumulation is left out. Each `createScene` call adds another `keydown` listener; the model has one controller per scene.
- Floating point: coordinates, scales and bounding-box values are `real`. `NaN` arises only from negating `undefined`. `-0` is not told apart from `0`, and infinite box bounds are not modelled.
- The source departs from what a leak-free, error-reporting loader would do, and the model follows the source:
  - nothing is revoked when the parser calls `reject`, nor when the success callback throws before its revocation line;
  - the object URL that `view` mints for the root file itself is never revoked;
  - `KeyG`/`KeyR` also act while orbiting;
  - a scan with no match produces no classification error value: `filetype` keeps its old value, and `view` is still called and fails in `URL.createObjectURL(undefined)`;
  - a glTF asset without a scene produces no dedicated error.
