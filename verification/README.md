# Globe hover and selection state machine

This project models the interactive globe of the site (`index.js`). A textured sphere shows a world map built from an SVG. Moving the pointer over the sphere highlights the country under it: its silhouette is drawn as an overlay and its name is shown in a label. Hovering a "country card" elsewhere on the page highlights that card's country. Clicking the globe navigates to the link of the highlighted country.

The model is functional. `HoverMap.State` is an immutable record holding the hovered index, the `isHoverable` and `isTouchScreen` flags, the pointer, the index of the last silhouette requested for the overlay, the markup assigned to the name label and the viewport size. `Interaction.Event` lists the events, and `Interaction.Step` / `Interaction.Run` are pure transition functions. Three browser or library services are inputs rather than code:

- the ray cast is the `Option<UV>` carried by each `Frame` event (one call of `render`);
- `isPointInFill` is the uninterpreted `inFill(i, p)` field of `HoverMap.Globe`;
- `getBBox` is the `box` stored in each `Countries.Country` record.

One record per country replaces the parallel lists of outlines, boxes and data URIs that share an index. Attribute values that can be `null` are `Option<string>`. Setting `innerHTML` to `null` leaves an empty label (`HoverMap.Display`).

Observations on the code as written:

- The bounding-box prefilter (`index.js:220-221`) joins `x > bx`, `x < bx + w`, `y > by` and `y < by + h` with `||`. It lets every point through whenever the box has a positive width or height. It rejects a point only when the box is a single point and the point is that corner. So it never rejects a point that should have been kept; it just prunes nothing. The model keeps the test as written (`Geometry.Prefilter`).
- The scan in `updateMap` skips the hovered country. So when two fills share a point, a pointer resting there makes the highlight flip between the two countries on every frame (`HoverMap.UpdateMapAlternatesOnOverlap`).
- Touch start does not switch off pointer hover for the rest of the session. Ending a drag sets `isHoverable` again. A frame after the pointer moves onto the globe (for example the mouse event a browser sends after a tap) then resolves a hit before `render` clears the flag (`Interaction.DragEndReenablesHoverOnTouch`). The model follows the code. What does hold is that, while hovering is off on a touch screen, nothing but drag end, the tween's completion or a card moves the hover (`Interaction.TouchKeepsHoverFrozen`).

## Model

| member | source | states |
|---|---|---|
| `Geometry.ToMapPoint` | index.js:213-216 | A hit in the unit texture square maps into the 2000×1000 view box; texture `y` 1 is the map's top edge and 0 its bottom |
| `Geometry.ToMapPointOrder` | index.js:215-216 | The scaling keeps horizontal order and reverses vertical order |
| `Geometry.Prefilter` | index.js:219-221 | The `||` prefilter accepts every point for a box with positive width or height; for non-negative extents it fails only for a zero-size box at its own corner |
| `Geometry.PrefilterRejects` | index.js:220-221 | For any box the prefilter rejects exactly the points between the far corner and the origin corner, so rejection needs both extents non-positive |
| `Viewport.UpdateSize` | index.js:244-249 | The container is square; its side is in [100, 400]; it is `min(w, h) - 100` when that lies in range, and 100 or 400 below or above it |
| `Viewport.UpdateSizeMonotonic` | index.js:245 | A window that is no smaller in either dimension never gives a smaller globe |
| `Viewport.UpdateSizeExamples` | index.js:245 | 50×50 gives 100×100, 2000×2000 gives 400×400 and 1280×420 gives 320×320 |
| `Countries.CountryLinks` | index.js:12-18 | Every name and every link in the table is non-empty |
| `Countries.LinksDomain` | index.js:14-18 | A name has an entry exactly when some path carries both that name and a link |
| `Countries.LinksLastWins` | index.js:14-18 | The entry for a name is the link of the last path carrying that name with a link, so a later duplicate overwrites an earlier one |
| `Countries.LinksLookup` | index.js:13-18 | The two facts above at one name, in the form the click handler uses |
| `Countries.IndexOfName` | index.js:65 | `findIndex`: the first index whose name equals the card's name (two absent names are equal), or none when no name equals it |
| `HoverMap.Display` | index.js:226 | The label's markup is the attribute's value, or the empty string when the attribute is absent |
| `HoverMap.FirstSelectable` | index.js:218-230 | The scan returns the lowest index that passes the prefilter, contains the point and is not the hovered one; it returns none only when no index does |
| `HoverMap.UpdateMap` | index.js:213-231 | Either nothing changes and no country other than the hovered one takes the point, or the hovered index becomes the lowest such country and the overlay and label follow it; flags, pointer and size never change |
| `HoverMap.UpdateMapSkipsCurrent` | index.js:223 | When the hovered country contains the point, the scan continues and picks the next country that contains it |
| `HoverMap.UpdateMapSettlesOnUniqueMatch` | index.js:218-230 | When exactly one country takes the point, one update hovers it and a repeat update with the same hit is a no-op |
| `HoverMap.UpdateMapAlternatesOnOverlap` | index.js:223-227 | With two countries that take the same point, successive updates alternate between them |
| `HoverMap.SelectableIgnoresBoxes` | index.js:220-222 | With non-degenerate boxes the prefilter decides nothing: a country stops the scan exactly when its fill contains the point and it is not the hovered one |
| `HoverMap.Render` | index.js:233-242 | Hovering disabled or a missed ray leaves hover, overlay and label unchanged; otherwise they are those of `updateMap`; afterwards hovering is on exactly when it was on and the screen is not a touch screen |
| `Interaction.Init` | index.js:37-39 | Start state: index 0 hovered, hovering on, no touch (lines 37-39); the pointer at (-1, -1) (line 94), the viewport sized by `updateSize` from the window (line 100), the name of country 0 shown (lines 190-192) and its silhouette requested (line 210); hover, overlay and label consistent from the start |
| `Interaction.OnTouchStart` | index.js:50 | Touch start sets the touch flag and nothing else |
| `Interaction.OnDragStart` | index.js:119-125 | Drag start turns hovering off and resets the pointer to (-1, -1); hover, overlay, label, touch and size are kept |
| `Interaction.OnDragEnd` | index.js:126-132 | Without the tweening helper drag end turns hovering on and changes nothing else; with it, drag end changes nothing |
| `Interaction.OnTweenComplete` | index.js:128 | The bounce tween's completion turns hovering on and changes nothing else |
| `Interaction.OnCardEnter` | index.js:62-71 | A card name some country bears makes the first such country hovered, with its overlay and the card's name as label, and nothing else changes; an unknown name changes nothing |
| `Interaction.OnClick` | index.js:52-59 | Only the pointer changes. Navigation happens exactly when the hovered country has a name that some path carries with a link, and the target is the last such path's link |
| `Interaction.ClickIgnoresPosition` | index.js:52-58 | The click's navigation does not depend on where the click landed, only on the hovered index |
| `Interaction.Step` | index.js:48-72 | No event clears the touch flag; only a click navigates; only a frame or a card moves the hover; after a frame on a touch screen hovering is off; a resize only re-sizes the viewport from the window (line 48) and a mouse move only sets the pointer (line 51) |
| `Interaction.StepKeepsConsistent` | index.js:223-226 | Every event keeps hovered index, overlay and label describing the same valid country, and keeps the viewport a clamped square |
| `Interaction.RunKeepsConsistent` | index.js:62-71 | The same agreement holds after any sequence of events, card hovers included |
| `Interaction.TouchIsPermanent` | index.js:38 | Once the touch flag is set, it stays set through any sequence of events |
| `Interaction.TouchStartIsPermanent` | index.js:50 | After a touch start anywhere in a sequence of events, the final state has the touch flag set |
| `Interaction.TouchKeepsHoverFrozen` | index.js:235-240 | On a touch screen with hovering off, no event except drag end, the tween's completion or a card hover changes the hover, overlay or label, and hovering stays off |
| `Interaction.DragEndReenablesHoverOnTouch` | index.js:126-131 | On a touch screen, drag end without the tweening helper, followed by a mouse move onto the globe, lets the next frame resolve a hit and change the hovered country |

## Left out

- Scene, meshes, materials, fog, camera, renderer and `OrbitControls` internals (`initScene`, `createGlobe`, `createOrbitControls`) are calls into three.js. `controls.update()` and `renderer.render` in `render` change no modelled state.
- Ray casting is not modelled. Each `Frame` event carries its hit as input, because the camera auto-rotates and the same pointer can hit different points on different frames. That the sentinel pointer misses the sphere is not modelled either.
- `isPointInFill` and `getBBox` are browser services. They appear as the `inFill` predicate and as the given boxes.
- SVG serialisation, data-URI building and asynchronous texture loading (`prepareHiResTextures`, `prepareLowResTextures`, `setMapTexture`) are left out. The overlay is modelled as the index of the most recently requested silhouette. Decode lag and failed loads are not modelled.
- How the browser parses the label's markup: the model keeps the string assigned to `innerHTML`, so a name containing `<` or an entity is shown differently from the stored string.
- Pointer normalisation (`updateMousePosition`) is floating-point screen arithmetic. `MouseMove` and `Click` carry the already-normalised pointer.
- Floating-point rounding in `Geometry.ToMapPoint` is not modelled: coordinates are exact reals.
- The gsap tweens only scale the globe, which is not modelled. The helper's presence is the `tween` flag, and the bounce tween's `onComplete` callback is the abstract `TweenComplete` event, which may arrive at any time.
- `Interaction.OnClick`: models `countryLinks` as a plain map. In the source it is a JavaScript object, so inherited property names such as `constructor` would also read as truthy entries.
- Navigation ends the page in the browser. `Interaction.Run` keeps folding events after a click's navigation request.
- `italiano/script.js`, `english/script.js` and `dutch/script.js` only position tooltips, reveal cards and run scroll animations. They have no hover-state logic.
