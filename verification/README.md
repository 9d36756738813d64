# Rotary dial menu, modelled in Dafny

This project models `RotaryMenu` from `app/site/page.tsx`: a circular menu
that the user turns by dragging with the mouse or a finger. When the drag is
released, the dial snaps to the nearest of its N equally spaced items, records
that item as the selection and reports it to the `onSelect` callback. Each
item also has an `onClick` handler that selects and reports that item
directly. The items are drawn inside the dial's container, which listens for
mouse-down. A mouse click on an item therefore first starts a drag. Its
mouse-up ends the drag, snaps the dial and schedules the nearest item for
`onSelect` 300 ms later. The `onClick` then passes the clicked item to
`onSelect` at once. One click hands two items to `onSelect`
(`RotaryMenu.ClickAlsoReleases`). The clicked item arrives first and stays
selected; the nearest item arrives 300 ms later. The model lists reports in
the order they are handed over or scheduled, not the order of delivery.

The project has three modules:

- `Snap` (`snap.dfy`) holds the snapping arithmetic of the release handler.
  - It spells out JavaScript's truncating `%` (`JsRem360`) and `Math.round`,
    which rounds halves upward (`JsRound`), over exact reals.
  - The normalised rotation is `((rotation % 360) + 360) % 360`.
  - The item count N and the slot width `360 / N` are bundled as a `Slots`
    value.
  - It also defines the nearest index, the snapped rotation and the
    circular distance between two angles.
- `Layout` (`layout.dfy`) holds the angle and radius parts of
  `getItemPosition`: the item angle `(index * 360) / N + rotation` and the
  size presets.
- `RotaryMenu` (`rotary_menu.dfy`) models the component itself.
  - Its state has four fields: `rotation`, `isDragging`, `startAngle` and
    `selectedIndex`.
  - Each handler is a function of the state, and `Run` folds them over a
    sequence of events.
  - The `Dial` class keeps the same state in fields that its methods update
    in place. Each method is proved to perform exactly the step its
    function describes.

Pointer positions enter the model as angles in degrees, already computed
from the pointer and the dial's centre.

One consequence of the layout is proved rather than assumed. After a release
on slot `k`, item `index` is drawn on slot `(index + k) % N`
(`Layout.SnappedItemOnSlot`). The selected item `k` itself is therefore drawn
on slot `2k % N`.

The model keeps three behaviours of the code:

- The handlers have no guard for non-finite pointer coordinates. A NaN
  rotation would flow through unchanged, so the model promises nothing
  about such input.
- A press during an ongoing drag is not ignored. It re-anchors the drag
  (`RotaryMenu.PressReanchors`).
- The deferred `onSelect` call makes no liveness check.

The source computes the nearest index as `Math.round(...) % N`. `NearestIndex`
writes this as "N becomes 0, anything else stays", because the rounded value
always lies in `[0, N]`. `Snap.NearestIndexIsRemainder` proves that the two
agree.

## Model

| member | source | states |
|---|---|---|
| Snap.Trunc | app/site/page.tsx:91 | The quotient JavaScript's `%` uses is the real rounded toward zero: it lies between 0 and the real, less than 1 away. |
| Snap.JsRem360 | app/site/page.tsx:91 | `a % 360` keeps the sign of `a`, lies strictly within one turn of 0, and differs from `a` by a whole number of turns. |
| Snap.Normalize | app/site/page.tsx:91 | The normalised rotation always lies in `[0, 360)`. |
| Snap.NormalizeIsFloorMod | app/site/page.tsx:91 | The double JavaScript remainder equals the floored modulo `r - 360 * floor(r / 360)`. |
| Snap.NormalizeUnique | app/site/page.tsx:91 | Any `r = y + 360 * turns` with `y` in `[0, 360)` normalises to exactly `y`. |
| Snap.NormalizeInTurn | app/site/page.tsx:91 | A rotation already in `[0, 360)` is left unchanged. |
| Snap.NormalizePeriodic | app/site/page.tsx:91 | Adding whole turns does not change the normalised rotation. |
| Snap.JsRound | app/site/page.tsx:93 | `Math.round(x)` is an integer `k` with `k - 1/2 <= x < k + 1/2`. |
| Snap.JsRoundUnique | app/site/page.tsx:93 | That bracket determines the rounded integer uniquely. |
| Snap.JsRoundHalfUp | app/site/page.tsx:93 | Halves round upward: `k + 1/2` rounds to `k + 1`, for negative `k` too. |
| Snap.JsRoundIsNearest | app/site/page.tsx:93 | No integer is closer to `x` than its rounding. |
| Snap.Slots.Angle | app/site/page.tsx:94 | `nearestIndex * snapAngle`: the angle of every slot `0 <= k < N` lies in `[0, 360)`. |
| Snap.Slots.Measure | app/site/page.tsx:93 | `normalizedRotation / snapAngle`: that many slot widths make up the rotation exactly. |
| Snap.SlotsOf | app/site/page.tsx:92 | For N > 0 items, the N slots of width `360 / N` make up exactly one turn. |
| Snap.RoundedSlot | app/site/page.tsx:91-93 | The rounded slot number lies in `[0, N]`; it can reach N before the `% N`. |
| Snap.NearestIndex | app/site/page.tsx:93 | `nearestIndex` is always a valid item index, below N. |
| Snap.NearestIndexIsRemainder | app/site/page.tsx:93 | The nearest index equals the rounded slot taken `% N`. |
| Snap.SnapRotation | app/site/page.tsx:94 | `nearestRotation` lies in `[0, 360)`. |
| Snap.RoundedSlotIsNearest | app/site/page.tsx:91-94 | Along the line, the rounded slot's angle is at least as close to the normalised rotation as any slot `j`, including `j` outside `[0, N)`. |
| Snap.SnapWithinRounded | app/site/page.tsx:93-94 | Wrapping slot N back to slot 0 never increases the distance around the circle. |
| Snap.SlotNoCloser | app/site/page.tsx:91-94 | No slot is nearer, either way round the circle, than the rounded slot. |
| Snap.NearestIsClosest | app/site/page.tsx:89-94 | The snapped rotation is the item slot nearest the normalised rotation around the circle. |
| Snap.MidpointSnapsUp | app/site/page.tsx:93 | A rotation exactly halfway between slots `j` and `j + 1` selects `(j + 1) % N`. |
| Snap.SnapIdempotent | app/site/page.tsx:91-94 | A rotation already on slot `k` selects `k` and keeps its rotation. |
| Snap.NearestIndexPeriodic | app/site/page.tsx:91-93 | Whole turns do not change the chosen index. |
| Snap.WrapToFirstSlot | app/site/page.tsx:91-94 | Within half a slot below a full turn, rounding reaches N, and the index wraps to 0 with rotation 0. |
| Layout.Radius | app/site/page.tsx:41 | The radius is 100, 120 or 140 for `sm`, `md` or `lg`: 100 plus 20 per step up in size. |
| Layout.Placement | app/site/page.tsx:38-41 | Item `index` is placed `index` slots past the rotation, at the radius of the size preset. |
| Layout.ItemAngle | app/site/page.tsx:40 | `(index * 360) / N + rotation` equals the angle of slot `index` on the snapping grid plus the rotation. |
| Layout.ItemSpacing | app/site/page.tsx:40 | Consecutive items are exactly one slot width apart. |
| Layout.ItemsApart | app/site/page.tsx:40 | Two different items never share a position on the circle, whatever the rotation. |
| Layout.SnappedItemOnSlot | app/site/page.tsx:40 | With the dial on slot `k`, item `index` lies exactly on slot `(index + k) % N`. |
| RotaryMenu.Press | app/site/page.tsx:59-62 | A press starts dragging and anchors the drag so that the pointer angle minus `startAngle` is the current rotation. Rotation and selection are unchanged. |
| RotaryMenu.PressReanchors | app/site/page.tsx:117-120 | A second press without a release re-anchors the drag, as if the first press had not happened. Touch-start does the same as mouse-down. |
| RotaryMenu.Move | app/site/page.tsx:68-81 | Outside a drag a move changes nothing. During a drag the rotation becomes the pointer angle minus the anchor; everything else is kept. |
| RotaryMenu.DragTracksPointer | app/site/page.tsx:77-80 | After a press at `a0`, a move to `a` turns the dial by `a - a0`. Moving back to `a0` restores the rotation from before the press. |
| RotaryMenu.MovesAreAbsolute | app/site/page.tsx:77-80 | Only the latest move of a drag matters; moves do not accumulate. |
| RotaryMenu.Release | app/site/page.tsx:84-103 | A release always ends the drag. Outside a drag it is a no-op that reports nothing. With zero items it only clears dragging. Otherwise the selected index is valid, the rotation is that slot's angle in `[0, 360)`, and the report is exactly the selected item. |
| RotaryMenu.ReleaseSelectsNearest | app/site/page.tsx:89-97 | The released selection is the snapped index, and its slot is the nearest to the released rotation around the circle. |
| RotaryMenu.ReleaseWrapsToFirst | app/site/page.tsx:91-97 | Within half a slot below a full turn, the release selects and reports item 0 at rotation 0. |
| RotaryMenu.ReleaseAtSlot | app/site/page.tsx:91-97 | Releasing on slot `k` keeps the rotation, selects `k` and reports `items[k]`. |
| RotaryMenu.ReleaseIgnoresWholeTurns | app/site/page.tsx:91 | Whole extra turns of the dial give the same release outcome. |
| RotaryMenu.ReleaseSingleItem | app/site/page.tsx:90-97 | With one item, every release selects and reports it at rotation 0. |
| RotaryMenu.Click | app/site/page.tsx:206-209 | A click on item `k` selects `k` and reports `items[k]` at once. Rotation, dragging and anchor are unchanged. |
| RotaryMenu.HandlersKeepSelectionValid | app/site/page.tsx:25 | Every handler keeps `selectedIndex` either empty or a valid index into the items, on any item list including the empty one; a click only when its index names an item. |
| RotaryMenu.Step | app/site/page.tsx:124-138 | Presses and moves never report an item. |
| RotaryMenu.Run | app/site/page.tsx:124-138 | A sequence of events reports at most one item per event. |
| RotaryMenu.RunConcat | app/site/page.tsx:124-138 | Running two event sequences one after the other is the same as running their concatenation, with the reports concatenated. |
| RotaryMenu.RunKeepsSelectionValid | app/site/page.tsx:169-173 | After any sequence of events with real-valued pointer angles, the selected index is still valid, so the centre label's `items[selectedIndex]` is defined. Touch moves are the exception (see "Left out"). |
| RotaryMenu.DragReportsNothing | app/site/page.tsx:68-81 | Moves during a drag report nothing and keep the drag, its anchor and the selection. The dial rests where the last move put it. |
| RotaryMenu.GestureReportsOnce | app/site/page.tsx:84-103 | A complete press–moves–release gesture ends at rest. It reports exactly one item when there are items and none otherwise. |
| RotaryMenu.ClickAlsoReleases | app/site/page.tsx:142-147 | A mouse click on item `k` is a press, a release and the item's `onClick`. It schedules the item nearest the current rotation, then passes `items[k]` at once, and leaves `k` selected. |
| RotaryMenu.EightItemDrag | app/site/page.tsx:266-275 | On the eight-item demo menu, a drag from 0 to 47 degrees settles at 45 degrees on item 1 and reports it. |
| RotaryMenu.EightSlotsAt47 | app/site/page.tsx:91-94 | 47 degrees is nearest to slot 1 of 8, which lies at 45 degrees. |
| RotaryMenu.EightItemNegativeAndWrap | app/site/page.tsx:91-94 | With eight items, a rotation of -30 settles on item 7 at 315 degrees, and 350 wraps to item 0 at 0 degrees. |
| RotaryMenu.Dial.constructor | app/site/page.tsx:22-25 | A new dial has rotation 0, is not dragging, has anchor 0 and no selection. |
| RotaryMenu.Dial.WithDefaultSize | app/site/page.tsx:19-25 | Without a `size`, the dial uses the `md` preset and starts in the initial state. |
| RotaryMenu.Dial.PressAt | app/site/page.tsx:50-65 | Updates the fields exactly as `Press`, keeping the selection valid. |
| RotaryMenu.Dial.MoveTo | app/site/page.tsx:68-81 | Updates the fields exactly as `Move`, keeping the selection valid. |
| RotaryMenu.Dial.ReleaseDrag | app/site/page.tsx:84-103 | Updates the fields exactly as `Release` and returns the item that `Release` reports. The centre label (lines 169-173) then shows that item's label, or is unchanged when nothing is reported. |
| RotaryMenu.Dial.ClickItem | app/site/page.tsx:206-209 | Updates the fields exactly as `Click` and returns the clicked item. The centre label then shows the label of the item just passed to `onSelect`. |
| RotaryMenu.Dial.Position | app/site/page.tsx:38-41 | Item `index` is drawn `index` slots past the current rotation, at the radius of the dial's size preset. |

## Left out

- Conversion of pointer positions to angles is not modelled. This covers `Math.atan2`, the degree–radian conversion and the bounding-rectangle centre (app/site/page.tsx:51-59, 71-77, 111-117). It is floating-point trigonometry over browser layout; angles are parameters instead.
- The `if (!containerRef.current) return` guards are not modelled. They only fail before the component is mounted in the DOM.
- The screen coordinates `radius * cos(angle)` and `radius * sin(angle)` are not modelled (app/site/page.tsx:43-44). Placement stops at the polar angle and radius.
- Numbers are exact reals, not IEEE doubles. Rounding error in `360 / N` and in the remainders is not modelled, and neither are NaN and infinities.
- The 300 ms `setTimeout` before `onSelect` is not modelled as a timer. The release returns the item it would report, and there is no liveness check to model.
- RotaryMenu.ClickAlsoReleases: its report list follows the order of scheduling, not of delivery. A release's item reaches `onSelect` 300 ms late (app/site/page.tsx:100-102), after any click in between (line 208). For a click on item `k`, `onSelect` therefore receives `items[k]` first and the snapped item second. When the two differ, the last item received is not the one the centre label shows.
- Adding and removing the document-wide listeners in `useEffect` is not modelled. React's batching of `setState` and stale closures are not modelled either. Events are applied one at a time to the latest state, and moves and releases act only while dragging, as the guards require.
- Touch moves are not modelled. `touchmove` is routed to `handleMouseMove` (app/site/page.tsx:128), which reads `clientX` from a touch event (line 74); a touch event has no `clientX`. The pointer angle, and so the rotation, becomes NaN. On `touchend` the nearest index and `selectedIndex` become NaN too (lines 91-97). `items[selectedIndex].label` (line 171) then fails. The model's pointer angles are reals, so it covers mouse drags and touch drags without moves. The selection-validity results hold only for those.
- The item list is fixed for the lifetime of a `Dial`. A parent passing a shorter list could leave `selectedIndex` out of range; that case is not modelled.
- `centerLabel`, the CSS size classes, the JSX markup, the selection indicator and the demo's `alert` are not modelled. They are presentation only.
- The application form, the applications API route, the admin article list, the media upload and the landing page are not part of this model. They consist of network, database and storage I/O.
