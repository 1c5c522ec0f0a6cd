# monogatari engine core, modelled in Dafny

This project models the runtime core of the monogatari JavaScript game engine and proves properties of that model. The core covers:

- the generic hierarchical `Tree` store;
- the `SceneManager`, which keeps named scenes and cameras and has a render pass over them;
- the `PhysicsManager`, which bridges Box2D contacts into messages on the message bus;
- the `Keyboard` state table;
- the word-wrapping text layout of the `Text` and `StaticText` components;
- the integer helpers of the engine's `Math` namespace;
- `CommonUtils.parseUnitSizeToPixel`.

Each module follows one source file. Code that changes state step by step is a Dafny `class`: `Tree`, `SceneManager`, `PhysicsManager`, `Keyboard` (over an `array<int>`), `Text` and `StaticText`. Their methods carry `modifies` clauses and their loops carry invariants. Each method is proved against a specification function, and the lemmas state what the source promises about that function. Pure helpers are functions and lemmas.

JavaScript conventions are modelled explicitly:

- A falsy string argument is `""` and a falsy number is `0`.
- `null` and `undefined` are `Option.None`.
- A thrown `TypeError` becomes a `thrown` result, and the state is left as it was when the exception left the method.
- Int32Array stores, `x | 0` and `x >> 0` go through ToInt32 (`JsValues`).
- Numbers are exact `real`s.

Modules and files:

| file | module | source |
|---|---|---|
| wrappers.dfy | `Wrappers` | `Option` |
| js_values.dfy | `JsValues` | ToInt32, truncation toward zero |
| core_math.dfy | `CoreMath` | src/main/core/Math.js |
| common_utils.dfy | `CommonUtils` | src/util/CommonUtils.js |
| tree_nodes.dfy, tree_edits.dfy, tree.dfy | `TreeNodes`, `TreeEdits`, `TreeCollection` | src/main/collection/Tree.js |
| physics_manager.dfy | `Physics` | src/manager/PhysicsManager.js |
| ordered_map.dfy, scene_manager.dfy | `OrderedMap`, `Scenes` | src/manager/SceneManager.js |
| keyboard.dfy | `Keyboards` | src/input/Keyboard.js |
| text_layout.dfy, text.dfy, static_text.dfy | `TextLayout`, `Texts`, `StaticTexts` | main/component/Text.js, src/component/StaticText.js |

Tree nodes are values: `Node(data, children, linked)`. A node's identity is its path of child indexes from the root. `linked` records whether the node's `parent` reference is set: the synthetic root never has one, and `remove` clears it.

## Where the code and the design description differ

The model follows the code in each case:

- **Contact callbacks.** The engine's design description says that when only one participant of a contact resolves to a game object, only the message in that direction is dropped. In the code, each `register` call reads both `goA.id` and `goB.id`, and each is guarded only by a test on the other object (src/manager/PhysicsManager.js:104-109). So a contact with exactly one resolved participant throws before anything is registered. `Physics.ContactMessages` returns `None` in that case, and `Physics.PhysicsManager.OnContact` reports `thrown` with the bus unchanged.
- **Missing scene in `attachToScene`.** The description leaves this case unstated. The code calls `scene.add` on `undefined` (src/manager/SceneManager.js:77-80), which throws as soon as the list is non-empty. `Scenes.SceneManager.AttachToScene` models that.
- **Rendering before `init`.** The design description calls this a silent no-op. In the code, `this.renderer` is assigned only in `init` (src/manager/SceneManager.js:14), so `render` throws a TypeError at the first scene it would draw (src/manager/SceneManager.js:99); only a pass with nothing to draw completes. `Scenes.SceneManager.Render` reports `thrown` in that case, with no draws issued.
- **`remove`.** The code searches the whole tree with `find` and then splices the parent's *last* child carrying the datum, which is not necessarily the node found (src/main/collection/Tree.js:47-53). Only the found node loses its children and its parent reference. Removing a datum whose first match is the root, or a node an earlier `remove` unlinked, throws on `node.parent.children`.

## Model

| member | source | states |
|---|---|---|
| JsValues.ToInt32 | src/main/core/Math.js:290-313 | the 32-bit conversion lands in [-2^31, 2^31), differs from its argument by a multiple of 2^32, and is the identity inside that range |
| JsValues.Trunc | src/main/core/Math.js:310-313 | truncation toward zero: the integral part, within one of x, on the side of zero |
| CoreMath.Min | src/main/core/Math.js:262-264 | the result is one of the arguments and no greater than either |
| CoreMath.Max | src/main/core/Math.js:272-274 | the result is one of the arguments and no less than either |
| CoreMath.Abs | src/main/core/Math.js:281-283 | the result is non-negative, is n or -n, and is n when n > 0 |
| CoreMath.NearestMultipleOfZero | src/main/core/Math.js:239-241 | a zero multiple returns the number unchanged |
| CoreMath.NearestMultipleNonNegative | src/main/core/Math.js:243-250 | for n >= 0 and m > 0 the result is the multiple of m following floor(n/m) |
| CoreMath.NearestMultipleNegative | src/main/core/Math.js:243-249 | for n < 0 the exact-multiple branch and the toward-zero branch also give the multiple of m following floor(n/m) |
| CoreMath.NearestMultipleIsNextMultipleAbove | src/main/core/Math.js:238-251 | for m > 0 every branch yields the smallest multiple of m strictly above n, so n < r <= n + m |
| CoreMath.Floor | src/main/core/Math.js:310-313 | the bitwise or with 0 yields a signed 32-bit integer |
| CoreMath.Ceil | src/main/core/Math.js:300-302 | `n + (n < 0 ? 0 : 1) >> 0` is a signed 32-bit integer |
| CoreMath.Round | src/main/core/Math.js:290-292 | `n + (n < 0 ? -0.5 : 0.5) >> 0` is a signed 32-bit integer |
| CoreMath.FloorTruncatesTowardZero | src/main/core/Math.js:310-313 | in the 32-bit range floor truncates: it equals the mathematical floor for n >= 0 and is one above it for negative non-integers |
| CoreMath.FloorOfNegativeHalf | src/main/core/Math.js:310-313 | floor(-1.5) is -1 while the mathematical floor is -2 |
| CoreMath.CeilCases | src/main/core/Math.js:300-302 | ceil is the true ceiling for negative n but floor(n)+1 for n >= 0, so an integer k >= 0 maps to k + 1 |
| CoreMath.RoundHalfAwayFromZero | src/main/core/Math.js:290-292 | round is floor(n + 0.5) for n >= 0 and -floor(0.5 - n) below 0, never more than 1/2 from n |
| CoreMath.RoundTies | src/main/core/Math.js:290-292 | ties go away from zero: 2.5 gives 3 and -2.5 gives -3 |
| CoreMath.NatToString | src/main/core/Math.js:171-195 | toString(radix) of a natural number is a non-empty string of digits valid in the radix |
| CoreMath.DigitsPrefix | src/main/core/Math.js:204-228 | parseInt reads the longest run of valid digits and stops at the first invalid character |
| CoreMath.DigitValueOfDigitChar | src/main/core/Math.js:171-228 | parseInt reads back each digit toString writes |
| CoreMath.DigitsValueOfNatToString | src/main/core/Math.js:171-228 | the digits of a natural number denote that number |
| CoreMath.TrimStart | src/main/core/Math.js:204-228 | parseInt first drops the leading white space: the result is a suffix of the text, everything before it is ECMAScript StrWhiteSpaceChar, and it does not start with one |
| CoreMath.ParseIntSkipsWhiteSpace | src/main/core/Math.js:204-228 | any run of leading white space leaves parseInt's result unchanged |
| CoreMath.ParseIntOfSpacedDigits | src/main/core/Math.js:204-228 | digits after any leading white space read to their value, so binaryToDecimal(" 101") is 5 |
| CoreMath.ParseIntOfDigits | src/main/core/Math.js:204-228 | parseInt of an unsigned run of valid digits is its value |
| CoreMath.ParseIntOfNegatedDigits | src/main/core/Math.js:204-228 | parseInt of a minus sign and a run of digits is the negated value |
| CoreMath.ParseIntOfIntToString | src/main/core/Math.js:171-228 | parseInt(k.toString(r), r) == k for every integer k and r in {2, 8, 16} |
| CoreMath.RadixRoundTrips | src/main/core/Math.js:171-228 | binaryToDecimal, octalToDecimal and hexToDecimal invert decimalToBinary, decimalToOctal and decimalToHex on every integer |
| CommonUtils.Suffix | src/util/CommonUtils.js:10-25 | every unit suffix is two characters long |
| CommonUtils.IndexOfFrom | src/util/CommonUtils.js:10-25 | indexOf returns -1 or an occurrence, with no occurrence before it |
| CommonUtils.IndexOfIsLastPosition | src/util/CommonUtils.js:10-25 | `indexOf(unit) === length - 2` holds exactly when the unit ends the text and occurs nowhere earlier |
| CommonUtils.AtMostOneUnit | src/util/CommonUtils.js:10-27 | at most one unit can pass its test, so the order of the tests does not decide the result |
| CommonUtils.SoleUnit | src/util/CommonUtils.js:10-27 | the unit whose test passes, or None when none passes |
| CommonUtils.ParseUnitSizeToPixelMeaning | src/util/CommonUtils.js:5-28 | text under two characters comes back verbatim; a sole unit suffix scales parseFloat of the prefix by its factor (pt 1.25, pc 15, mm 3.543307, cm 35.43307, in 90, px 1); otherwise parseFloat of the whole text |
| CommonUtils.ParseUnitSizeExamples | src/util/CommonUtils.js:5-28 | "12pt" is 15 pixels, "ptpt" falls through to parseFloat of the whole text, "7" comes back verbatim |
| TreeNodes.ParentPath | src/main/collection/Tree.js:4-8 | the parent of a non-start node is the node at its path without the last index, and has it as a child |
| TreeNodes.FindAux | src/main/collection/Tree.js:17-29 | a hit is a valid path to a node carrying the datum |
| TreeNodes.FindAmong | src/main/collection/Tree.js:21-27 | the child loop only returns hits under the children from i on |
| TreeNodes.FindOwnDatum | src/main/collection/Tree.js:10-19 | searching for the start node's own datum ('root' at the root) returns the start node |
| TreeNodes.FindComplete | src/main/collection/Tree.js:14-32 | if any node carries the datum, find returns a node |
| TreeNodes.FindIsFirstInPreOrder | src/main/collection/Tree.js:14-32 | find returns the first node in depth-first pre-order that carries the datum (an independent reference definition) |
| TreeNodes.FindAmongIsFirstMatch | src/main/collection/Tree.js:21-27 | the child loop is the first match over the children's pre-order paths |
| TreeNodes.DescendantsArePreOrder | src/main/collection/Tree.js:78-94 | listDescendants is the pre-order node list without the start node |
| TreeNodes.ChildPathsMatchDescendants | src/main/collection/Tree.js:81-87 | the accumulator loop from child i on lists the nodes of those children's subtrees in pre-order |
| TreeNodes.LeafSize | src/main/collection/Tree.js:10-12 | a node without children, such as a fresh root, is one node |
| TreeNodes.DescendantsCount | src/main/collection/Tree.js:78-94 | listDescendants has one entry per node other than the start node |
| TreeNodes.Graft | src/main/collection/Tree.js:40-56 | replacing the subtree at a path puts the new node there |
| TreeNodes.GraftWeight | src/main/collection/Tree.js:40-56 | an in-place edit changes the node count by the difference between the new and the old subtree |
| TreeNodes.GraftElsewhere | src/main/collection/Tree.js:40-56 | an in-place edit leaves every node off the edited path unchanged, and the nodes above it keep their data, parent references and child counts |
| TreeEdits.InsertionPoint | src/main/collection/Tree.js:36-39 | put attaches to the first node carrying `parent`, or to the root |
| TreeEdits.PutShape | src/main/collection/Tree.js:34-41 | put appends one linked leaf carrying the datum to the insertion point, keeps that node's earlier children, and changes no other node |
| TreeEdits.PutCounts | src/main/collection/Tree.js:34-41 | put never deduplicates: one more node, and one more carrying the datum |
| TreeEdits.PutFallsBackToRoot | src/main/collection/Tree.js:36-40 | with a falsy or missing parent the new leaf becomes the root's last child |
| TreeEdits.LastIndexOf | src/main/collection/Tree.js:47-52 | the sibling loop ends at the last child carrying the datum, or -1 for undefined |
| TreeEdits.SplicedShape | src/main/collection/Tree.js:53-56 | the splice drops the last equal sibling, keeps the others in order, and empties and unlinks the found child if it stays |
| TreeEdits.RemoveAbsent | src/main/collection/Tree.js:44-45 | removing a datum no node carries changes nothing |
| TreeEdits.RemoveThrows | src/main/collection/Tree.js:44-55 | remove throws exactly when the found node has no parent reference, for example a datum first found at the root |
| TreeEdits.RemoveShape | src/main/collection/Tree.js:43-58 | a successful remove rewrites only the parent's children (by the splice) and leaves every node off that path unchanged |
| TreeEdits.RemovedIsGraft | src/main/collection/Tree.js:43-58 | a successful remove is the spliced parent grafted back at its path |
| TreeEdits.RemoveSplicesLastEqualSibling | src/main/collection/Tree.js:47-56 | with two equal siblings, remove deletes the later one and empties the earlier one |
| TreeEdits.RemoveUnique | src/main/collection/Tree.js:43-58 | for a datum carried once, remove detaches its whole subtree: the size drops by that subtree's size and the datum is no longer found |
| TreeCollection.SearchFrom | src/main/collection/Tree.js:17-29 | the early-return recursive loop computes findAux |
| TreeCollection.CollectDescendants | src/main/collection/Tree.js:81-87 | the push-and-recurse loop appends the node's pre-order descendants to the accumulator |
| TreeCollection.LastEqualSibling | src/main/collection/Tree.js:47-52 | the loop returns the last index whose child carries the datum |
| TreeCollection.Tree.constructor | src/main/collection/Tree.js:10-12 | a tree holds only the unlinked root with its datum |
| TreeCollection.Tree.Find | src/main/collection/Tree.js:14-32 | a result lies below the start node and carries the datum; it is the first such node in pre-order; None means that no node below the start carries the datum |
| TreeCollection.Tree.Put | src/main/collection/Tree.js:34-41 | the new tree is Inserted(...), one node larger |
| TreeCollection.Tree.Remove | src/main/collection/Tree.js:43-58 | throws exactly when Removed(...) is None, and then nothing changes; otherwise the tree becomes Removed(...) |
| TreeCollection.Tree.Clear | src/main/collection/Tree.js:60-62 | the root keeps only itself |
| TreeCollection.Tree.ListChildren | src/main/collection/Tree.js:69-76 | the children of the node `find` returns, the first carrier of the datum in pre-order; None exactly when no node carries it |
| TreeCollection.Tree.ListDescendants | src/main/collection/Tree.js:78-94 | the found node's pre-order descendants, one per node of its subtree but itself, or None when nothing is found |
| TreeCollection.Tree.ToArray | src/main/collection/Tree.js:96-98 | corrected toArray: every node but the root, in pre-order |
| TreeCollection.NodeQueryMisses | src/main/collection/Tree.js:17-29 | a search for a node object compares it with data and never matches |
| TreeCollection.ToArrayAsWrittenIsNull | src/main/collection/Tree.js:96-98 | toArray as written returns null on every tree |
| OrderedMap.IndexOf | src/manager/SceneManager.js:42-47 | a key's position is its first entry, or -1 when it is absent |
| OrderedMap.Get | src/manager/SceneManager.js:47 | get returns a stored value of the key, or undefined exactly when the key is absent |
| OrderedMap.Put | src/manager/SceneManager.js:42 | put replaces a present key's value where it stands, or appends a new entry |
| OrderedMap.GetPut | src/manager/SceneManager.js:42-47 | after put, the key maps to the value, other keys keep theirs, and keys stay unique |
| OrderedMap.GetPutSame | src/manager/SceneManager.js:35-36 | after put, get of the same key returns the value put |
| Scenes.NewCamera | src/manager/SceneManager.js:63-65 | the viewport is centred, width wide and height high, near 1, far the larger side, showing one scene |
| Scenes.SceneDrawsSound | src/manager/SceneManager.js:95-101 | one camera's draws are sound, at most one per attached id, exactly one when every id exists |
| Scenes.DrawsSound | src/manager/SceneManager.js:85-103 | a render pass issues at most one draw per attachment, exactly one each when all attached scenes exist, and only draws registered scenes through cameras showing them |
| Scenes.SceneDrawsComplete | src/manager/SceneManager.js:95-101 | one camera draws every attached id that names a registered scene, with its current meshes, and issues exactly as many draws as there are such ids |
| Scenes.DrawsComplete | src/manager/SceneManager.js:85-103 | a render pass draws every attachment whose scene is registered, through its camera with the scene's meshes, and issues exactly Present(...) draws: one per such attachment |
| Scenes.SceneManager.constructor | src/manager/SceneManager.js:3-7 | no scenes, no cameras, and no renderer until init |
| Scenes.SceneManager.CreateScene | src/manager/SceneManager.js:41-43 | an empty scene is put under the id or the default, replacing any scene there |
| Scenes.SceneManager.CreateCamera | src/manager/SceneManager.js:46-72 | with the scene present, a NewCamera of the given or canvas size is put under the camera id; otherwise nothing changes |
| Scenes.SceneManager.Init | src/manager/SceneManager.js:12-38 | the renderer exists afterwards; clear color or white, canvas sizes or inner window less 20, z the larger side, the default scene and default camera created |
| Scenes.SceneManager.AttachToScene | src/manager/SceneManager.js:75-83 | the meshes are appended in order to the scene; a missing scene throws on a non-empty list and changes nothing |
| Scenes.SceneManager.Render | src/manager/SceneManager.js:85-103 | before init, throws exactly when there is something to draw (SceneManager.js:99 calls `render` on the undefined renderer) and issues nothing; otherwise the nested loops issue exactly Draws(cameras, scenes), in camera order and then attachment order; every draw is sound, every attachment with a registered scene is drawn, and there are exactly Present(...) draws |
| Physics.MaskConstants | src/manager/PhysicsManager.js:42-52 | the four listener bits are disjoint single bits; 3 and 15 are their unions |
| Physics.Bit | src/manager/PhysicsManager.js:98-142 | each kind's enabling bit is a non-zero bit inside ALL_LISTENERS |
| Physics.EnabledByMasks | src/manager/PhysicsManager.js:42-55 | ALL enables every kind, BEGIN_END exactly Begin and End, a kind's own bit only that kind, 0 none |
| Physics.PayloadOf | src/manager/PhysicsManager.js:105-153 | every message carries the contact; PreSolve adds the manifold and PostSolve the impulse |
| Physics.CreateListener | src/manager/PhysicsManager.js:95-158 | each kind's callback registers messages when its bit is set in the mask, and is a no-op otherwise |
| Physics.ContactMessagesCases | src/manager/PhysicsManager.js:98-155 | disabled kind or no resolved participant: nothing; both resolved: exactly A to B then B to A, with the kind's tag and payload; one resolved: throws |
| Physics.ContactMessagesSymmetric | src/manager/PhysicsManager.js:98-155 | swapping the fixtures swaps the two messages |
| Physics.StepSize | src/manager/PhysicsManager.js:165-168 | the step is 1/fps for a truthy fps, otherwise the 60 fps step |
| Physics.PhysicsManager.constructor | src/manager/PhysicsManager.js:18-58 | no world, iterations 2 and 2, no force clearing, mask 0, no listener |
| Physics.PhysicsManager.CreateWorld | src/manager/PhysicsManager.js:67-71 | a new world with the listener installed; mask as given, or 3 when falsy; CreateListener for that mask |
| Physics.PhysicsManager.AttachToWorld | src/manager/PhysicsManager.js:77-79 | the world creates one body from the definition and the component stores it; throws without a world |
| Physics.PhysicsManager.OnContact | src/manager/PhysicsManager.js:98-155 | the bus grows by exactly ContactMessages, or the call throws and the bus is unchanged |
| Physics.PhysicsManager.Update | src/manager/PhysicsManager.js:163-176 | with a world, one Step(StepSize(fps)) with the configured velocity and position iterations, then ClearForces when clearForcesOnUpdate is set; without a world, nothing |
| Keyboards.Code | src/input/Keyboard.js:19-119 | every key code fits the 256-entry table |
| Keyboards.PreventsDefaultCodes | src/input/Keyboard.js:137-146 | exactly the codes 8, 32, 33, 34, 37, 38, 39 and 40 have their default prevented |
| Keyboards.KeyEvent.constructor | src/input/Keyboard.js:134-135 | an event with its key code, neither stopped nor prevented |
| Keyboards.Stored | src/input/Keyboard.js:148 | an Int32Array element holds ToInt32 of the time, the truncated time inside the 32-bit range |
| Keyboards.WrappedTimestampReadsAsUp | src/input/Keyboard.js:126-148 | a key pressed at time 2^32 - 1 stores -1 and so reads as up |
| Keyboards.Keyboard.constructor | src/input/Keyboard.js:7-17 | a fresh 256-entry table with every key up (-1) |
| Keyboards.Keyboard.IsDown | src/input/Keyboard.js:126-128 | the timestamp of a pressed key; null for -1 and undefined outside the table (both None) |
| Keyboards.Keyboard.OnKeyDown | src/input/Keyboard.js:134-149 | propagation stopped; default prevented for the eight navigation keys; only the key's entry changes, to Stored(time), so IsDown reports it unless it wrapped to -1 |
| Keyboards.Keyboard.OnKeyUp | src/input/Keyboard.js:154-157 | propagation stopped; only the key's entry changes, to -1, and IsDown reports None |
| TextLayout.Split | main/component/Text.js:339 | split(' ') gives at least one piece and no piece contains a space |
| TextLayout.JoinSplit | main/component/Text.js:339 | joining the pieces with spaces gives back the text |
| TextLayout.LayoutChars | main/component/Text.js:337-381 | the walk draws the text's characters in order, spaces included, plus one trailing space glyph; the empty text draws nothing |
| TextLayout.LayoutFlows | main/component/Text.js:342-381 | each glyph is drawn at its own size, the first at the origin, and each next one right after the previous one on the same line or at the left edge one glyph height lower |
| TextLayout.WrapRule | main/component/Text.js:360-363 | the cursor returns to the left edge and descends by the last glyph height exactly when cX + wordCount * cW >= w; otherwise it does not move |
| TextLayout.RenderWords | main/component/Text.js:358-381 | the nested word and glyph loops produce exactly Layout(text, origin, w, fontMap) |
| Texts.TextPaintShape | main/component/Text.js:337-381 | the bubble is painted first, exactly when the text is non-empty and radius > 0; the glyphs follow, spell text + ' ' and start at (radius, radius) |
| Texts.Text.constructor | main/component/Text.js:19-133 | the given values or the defaults (pangram, 256, 64), radius -1, bubble '#FFF'/'#000', renderable, not loaded, buffer w by h, no texture, one load |
| Texts.Text.Reset | main/component/Text.js:150-158 | values or defaults (pangram, 10, 'Verdana', 256, 64, '#000') and one load; isLoaded and the buffer size are left alone |
| Texts.Text.SetSize | main/component/Text.js:169-173 | not loaded, the size or 10, one load |
| Texts.Text.SetFamily | main/component/Text.js:184-188 | not loaded, the family or 'Verdana', one load |
| Texts.Text.SetColor | main/component/Text.js:199-203 | not loaded, the color or '#000', one load |
| Texts.Text.SetText | main/component/Text.js:213-217 | not loaded, the text (falsy gives '', not the pangram), one load |
| Texts.Text.SetWidth | main/component/Text.js:228-233 | not loaded, the width or 256, buffer.width == w, one load; resizing appends a whole-buffer clear, so the buffer then shows nothing |
| Texts.Text.SetHeight | main/component/Text.js:244-249 | not loaded, the height or 64, buffer.height == h, one load; resizing appends a whole-buffer clear, so the buffer then shows nothing |
| Texts.Text.CreateBubble | main/component/Text.js:274-278 | radius and colors or -1, '#FFF' and '#000'; no load and isLoaded untouched |
| Texts.Image | main/component/Text.js:287-290 | what a buffer shows: the operations since the last clearRect covering the whole buffer, none of which covers it |
| Texts.ImageAppend | main/component/Text.js:337-381 | paint that clears nothing is added to what the buffer shows, as it is |
| Texts.RenderedImage | main/component/Text.js:335 | after clearRect(0, 0, w, h) and the paint, the buffer shows exactly the paint when w by h covers it; otherwise what it showed before, the partial clear and the paint, so earlier paint outside w by h survives |
| Texts.LoadedImage | main/component/Text.js:258-262 | onLoad's two clears and render leave exactly the new paint visible when w by h covers the buffer |
| Texts.Text.RenderIntoBuffer | main/component/Text.js:328-386 | the buffer's operations grow by clearRect(0, 0, w, h) and then TextPaint(...); the returned canvas is the whole buffer |
| Texts.Text.OnLoad | main/component/Text.js:258-262 | clearBuffer's clearRect(0, 0, w, h), then renderIntoBuffer's clear and TextPaint(...); the texture is made from the canvas, and the component is loaded (createTexture, line 317) |
| StaticTexts.StaticText.constructor | src/component/StaticText.js:3-19 | the scene id or null, the given values or the defaults, buffer w by h, nothing drawn, not loaded |
| StaticTexts.StaticText.Reset | src/component/StaticText.js:23-29 | values or defaults (pangram, 10, 'Verdana', 256, 64); no reload, and the buffer keeps its size |
| StaticTexts.StaticText.RenderIntoBuffer | src/component/StaticText.js:52-89 | the walk from (0, 0) is drawn on top of the buffer's earlier contents, since the buffer is never cleared |
| StaticTexts.StaticText.OnLoad | src/component/StaticText.js:31-50 | the buffer gains Layout(text, 0, w, fontMap) and the component is loaded |
| StaticTexts.StaticLayout | src/component/StaticText.js:55-85 | the empty text draws nothing; otherwise the glyphs spell text + ' ', start at (0, 0) and flow or wrap to x = 0 |

## Findings

| source | as written | input that shows it | evidently intended | confidence | as-written member | corrected member |
|---|---|---|---|---|---|---|
| src/main/collection/Tree.js:96-98 | `toArray` passes the root node object to `listDescendants`, whose `find` compares that object with every node's datum | any tree, for example the root with two children: no datum equals the node object, so `find` returns null and `toArray` returns null | every node but the root in pre-order, as `listDescendants(this.root.data)` would give | medium (not executed; `Common.equals` is not part of this model and is taken to compare values) | TreeCollection.ToArrayAsWrittenIsNull | TreeCollection.Tree.ToArray |

## Left out

- TreeCollection.Tree.Find: the start node is a path into the current tree, so a start node outside it cannot be given. The source's `find(data, startNode)` (src/main/collection/Tree.js:14-15) accepts any TreeNode, such as the later equal sibling that `remove` splices out, which keeps its children and its parent reference (src/main/collection/Tree.js:53). The search itself on any node value is TreeNodes.FindAux, but Tree.Find does not offer it for nodes outside the tree.
- TreeCollection.Tree.ListChildren: the source returns the live `node.children` array, so a caller that pushes to it or splices it changes the tree. The model returns a copy of the children as values, so that aliasing is not captured. The same holds for the node objects that TreeCollection.Tree.ListDescendants returns.
- TreeCollection.Tree.Put: `if (parent)` sends every falsy parent (`0`, `''`, `false`, `null`) to the root. The datum type is generic, so the model does not decide truthiness. Callers pass `None` for a falsy parent, and `Some(v)` for a truthy one.
- Tree.move (src/main/collection/Tree.js:64-67) calls the unqualified globals `remove` and `put` rather than the tree's methods, so it always throws a ReferenceError. It is not modelled as an operation.
- PhysicsManager.destroyBody (src/manager/PhysicsManager.js:85-87) hands `bodyDef` to Box2D and changes no state this model tracks.
- Box2D itself is not modelled: the world is a log of the calls made on it, the body handle is a counter, and `wrapPointer` snapshots are opaque numbers. `MessageManager.register` appends to the `bus` sequence.
- Physics.PhysicsManager.OnContact: the callback order within a step belongs to Box2D and is not modelled; each callback is a separate call.
- Physics.MaskBits: the mask's ToInt32 bit pattern carries no contract of its own; EnabledByMasks states what the masks enable.
- Physics.StepSize: Timer.FRAME_RATE_60FPS is not part of this model and is taken to be 1/60.
- `collection/Map` is not part of this model. It is taken to be an insertion-ordered association list in which `put` of a present key replaces the value in place. `Camera2D.addScene` is taken to append the scene id, and THREE's `scene.add` to append the mesh. Real THREE re-parents an object that is already in a scene; that is not modelled.
- SceneManager.init: the renderer choice, `renderer.setSize`, the DOM `appendChild` and `window.innerWidth` are left out. The window size is a parameter.
- Scenes.SceneManager.CreateCamera: before init the source's `canvasWidth` and `canvasHeight` are undefined, so a falsy width or height gives a camera whose viewport bounds and far plane are NaN (src/manager/SceneManager.js:53-63). NaN is not modelled: the constructor's canvas size is 0.0, and such a camera gets a zero-size viewport.
- Scenes.SceneManager.CreateCamera: the `console.log('Scene not found:' + sceneId)` message for a missing scene (src/manager/SceneManager.js:69) is left out. The state is left unchanged, as in the source.
- Scenes.SceneManager.Render: each `renderer.render` call is a `Draw` record. No pixels are modelled.
- Keyboards.Code: the inverse table from codes to key names is not stated.
- Keyboards.Keyboard.IsDown: `null` and `undefined` are both None.
- BaseFont is not part of this model: `load`, `parse` and the font map it builds are left out. `load()` is counted in `loadRequests`. The glyph sizes `parse` produces are the `fontMap` parameter of OnLoad and RenderIntoBuffer. The constructors' font defaults, which BaseFont sets, are taken to be reset's (10, 'Verdana', '#000'), and the initial `isLoaded` of StaticText false.
- Texts.Text.OnLoad: THREE texture, material, geometry and mesh creation is left out. The texture is the canvas's operation log it was made from. Canvas clipping at the buffer edges is not modelled, and a clearRect smaller than the buffer is kept as an operation rather than applied to pixels.
- Texts.Text.RenderIntoBuffer: the colors set on the context and the rounded-rectangle path of Context2D are reduced to one `Bubble` record.
- TextLayout: `fontMap` is a total function from characters to glyph sizes. In the source, `fontMap.get` of a character the font did not parse gives `undefined`, and reading `c.width` then throws a TypeError (main/component/Text.js:366-368, src/component/StaticText.js:70-72). That error path is not modelled.
- Text layout: NaN, infinities and floating-point rounding of the cursor sums are not modelled (numbers are exact reals).
- CoreMath: `toRadians`, `toDegrees` and the numeric constants multiply by approximate floating constants and are left out. `NearestMultiple` is stated for m > 0 and m = 0; negative multiples are modelled but carry no lemma.
- CoreMath.FloorTruncatesTowardZero, CoreMath.CeilCases, CoreMath.RoundHalfAwayFromZero: stated only inside the signed 32-bit range. Outside it the functions wrap, as ToInt32 says.
- CoreMath.RadixRoundTrips: stated on integers. toString and parseInt of fractional numbers are not modelled.
- CommonUtils.ParseUnitSizeToPixelMeaning: strings are modelled as sequences of Unicode code points, while a JavaScript string is a sequence of UTF-16 code units. For text holding characters outside the Basic Multilingual Plane, `length`, `substring` and `indexOf` count differently: "😀" has length 2 in the source, so no unit matches and `parseFloat` gives NaN, while the model counts one character and returns it verbatim.
- TextLayout.LayoutChars: the placement count `|text| + 1` and the glyph walk count code points; the loops of main/component/Text.js:365-372 and src/component/StaticText.js:69-76 visit UTF-16 code units, so a character outside the Basic Multilingual Plane is looked up as two surrogate halves there and as one character here. The same holds for TextLayout.Layout and StaticTexts.StaticLayout.
- CommonUtils.ParseUnitSizeToPixel: `parseFloat` is a function parameter. `store` writes to localStorage and is left out.
