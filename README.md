# Responsive background extension, modelled in Dafny

This project models the background manager of a personal web page
(`ResponsiveBackgroundManager` in `responsive-background.js`). The manager
paints one fixed background image near the top of the page. When the page
content reaches past the bottom of that image, it adds a single "extension"
element with a vertically tiling fill that covers the rest of the content.

The model has five parts: two pure ones, and three that each hold state in a class.

- `geometry.dfy` (module `Geometry`) is the placement of the primary image.
  The usable width is the viewport width minus 20. The height keeps the
  image's aspect ratio. The start offset is clamped into a range chosen by
  the size class (mobile, tablet or desktop). The end offset is start plus
  height.
- `content.dfy` (module `Content`) is the content extent. It is the bottom
  edge of `.main-content` in document coordinates when that element exists.
  Otherwise it is the largest of four body and root heights.
- `dom.dfy` (module `Dom`) is the document. The class `Body` holds the
  body's style (background position Y and minimum height) and its children
  as a sequence. `getElementById`/`remove` are stated on that sequence.
- `controller.dfy` (module `Controller`) has two halves. `Update` gives the
  update cycle as a function on an abstract state. The class
  `ResponsiveBackgroundManager` has methods that change that state in place,
  and each method is proved equal to the function.
- `debounce.dfy` (module `Debounce`) is the coalescing scheduler used by
  `debounce` and the scroll handler. It runs on an abstract integer clock.

The invariant `Controller.Inv` says four things. A loaded image has a
positive natural width. There is at most one node with id
`background-extension`. `currentExtensionHeight` is never negative. It is
positive exactly when such a node exists. Every update cycle keeps
this invariant. The invariant is needed because the code removes only the
first node it finds with that id before appending a new one.

Browser numbers are IEEE-754 doubles. Here they are exact `real`s. Window
and image sizes are `nat`s. Timers are replaced by explicit `Call`/`Tick`
events.

## Model

| member | source | states |
|---|---|---|
| `Geometry.ScreenSizeOf` | responsive-background.js:76-87 | mobile iff width ≤ 768, tablet iff 768 < width ≤ 1024, desktop iff width > 1024 |
| `Geometry.BackgroundStartY` | responsive-background.js:73-80 | for tablet widths the start is 10% of the viewport height clamped into [90,130]; for mobile and desktop it is 12% clamped into [100,150], so the mobile branch equals the default |
| `Geometry.Clamp` | responsive-background.js:73 | `max(lo, min(x, hi))` is the point of [lo,hi] nearest to x |
| `Geometry.ScaledHeight` | responsive-background.js:68-70 | height × natural width = natural height × usable width (aspect ratio kept) |
| `Geometry.CalculateMainBackgroundDimensions` | responsive-background.js:59-89 | no placement iff the image is not loaded; otherwise width = viewport width − 20, aspect ratio kept, endY = startY + height, the size class of the width, and the start offset above |
| `Geometry.SizeClassBoundaries` | responsive-background.js:76-80 | widths 768, 769, 1024 and 1025 fall in mobile, tablet, tablet and desktop, with start ranges [100,150], [90,130] and [100,150] |
| `Geometry.PlacementExample` | responsive-background.js:64-86 | 1280×800 viewport with a 1200×800 image: width 1260, height 840, start 100, end 940, desktop |
| `Content.Max4` | responsive-background.js:106-111 | the maximum is at least each of the four heights and equals one of them |
| `Content.GetContentDimensions` | responsive-background.js:91-118 | with `.main-content` present, the height is its top plus the scroll offset plus its height; without it, the height is ≥ each of the four body/root heights and equals one of them; the viewport height is passed through |
| `Dom.GetExtensionElement` | responsive-background.js:172 | returns the first child carrying the extension id, or nothing when no child carries it |
| `Dom.RemoveExtension` | responsive-background.js:172-175 | removing the found node lowers the count of extension nodes by one (or leaves a page without one unchanged) and keeps every non-extension child in order |
| `Dom.RemoveAppended` | responsive-background.js:172-195 | on a page without an extension node, remove-then-append followed by another remove gives back the page |
| `Controller.ExtensionNode` | responsive-background.js:178-193 | the new node carries the extension id, starts at startY, has non-negative height, and ends at the content's end when that lies below startY (height 0 otherwise) |
| `Controller.Enabled` | responsive-background.js:137-168 | the primary image starts at the placement's start, the new extension node is the last child and, from a page with at most one extension node, the only one (the earlier node is replaced, never duplicated), other children are kept, minHeight is the larger of content and viewport height, and endY + extension height = content height |
| `Controller.Disabled` | responsive-background.js:204-240 | other children are kept, no extension node remains when there was at most one, the start offset is that of the viewport, minHeight is `100vh`, extension height is 0 |
| `Controller.SnapshotOf` | responsive-background.js:248-254 | reports the extension height and loaded flag; under the invariant, "active" holds exactly when one extension node exists |
| `Controller.Update` | responsive-background.js:120-135 | with the image not loaded nothing changes; the loaded flag, the image size and all non-extension children are never changed |
| `Controller.UpdatePreservesInv` | responsive-background.js:128-232 | every cycle keeps "at most one extension node, and `currentExtensionHeight > 0` iff one exists" |
| `Controller.UpdateCoverage` | responsive-background.js:128-232 | content past endY: exactly one extension node, last among the children, with top endY and height content − endY, minHeight max(content, viewport height), background start = placement start, and extension height content − endY > 0; otherwise no node, minHeight `100vh`, extension height 0, and the same start offset as the placement |
| `Controller.UpdateIdempotent` | responsive-background.js:120-232 | two cycles with unchanged inputs reach the same state as one |
| `Controller.ExtensionActiveIffNode` | responsive-background.js:248-253 | `isExtensionActive` holds exactly when the document holds an extension node |
| `Controller.WorkedExample` | responsive-background.js:128-156 | 1280×800 with a 1200×800 image: content 1500 gives a node at 940 of height 560, minHeight 1500 and extension height 560; content 900 gives no node, minHeight `100vh` and extension height 0 |
| `Controller.ResponsiveBackgroundManager.constructor` | responsive-background.js:3-6 | starts not loaded, with extension height 0, on a page without an extension node |
| `Controller.ResponsiveBackgroundManager.OnImageLoad` | responsive-background.js:9-12 | records the natural size, sets loaded, and runs one cycle |
| `Controller.ResponsiveBackgroundManager.UpdateBackground` | responsive-background.js:120-135 | the new state is `Update` of the old one, and the invariant is kept |
| `Controller.ResponsiveBackgroundManager.EnableBackgroundExtension` | responsive-background.js:137-168 | sets the start offset and minHeight, replaces the extension node and records content − endY |
| `Controller.ResponsiveBackgroundManager.CreateExtensionElement` | responsive-background.js:170-202 | the children become the old ones with the first extension node removed, plus a new node at startY with height max(content − startY, 0); the style is untouched |
| `Controller.ResponsiveBackgroundManager.DisableBackgroundExtension` | responsive-background.js:204-240 | removes the extension node, sets the start offset and minHeight `100vh`, records extension height 0 |
| `Controller.ResponsiveBackgroundManager.Refresh` | responsive-background.js:243-245 | same as one update cycle |
| `Controller.ResponsiveBackgroundManager.GetState` | responsive-background.js:248-254 | reports the extension height and loaded flag, and "active" exactly when an extension node exists |
| `Debounce.Step` | responsive-background.js:47-57 | a call replaces any pending run by one `wait` after it; a tick at or after the deadline runs once and clears it; any other tick changes nothing |
| `Debounce.LastCall` | responsive-background.js:54-55 | the time of the last call, after which only ticks follow; nothing when there was no call |
| `Debounce.CoalescingPending` | responsive-background.js:47-57 | while every tick comes before the current deadline, nothing runs and one run is pending, `wait` after the last call |
| `Debounce.BurstPending` | responsive-background.js:47-57 | during a chronological burst nothing runs and exactly one run is pending, `wait` after the last call, which is the latest call on the clock |
| `Debounce.QuietAfterRun` | responsive-background.js:50-53 | with nothing pending, any number of further ticks changes nothing |
| `Debounce.BurstRunsOnce` | responsive-background.js:47-57 | a burst followed by a tick at or after its deadline runs exactly once, at that tick, and any later ticks run nothing more |
| `Debounce.HandlerBurst` | responsive-background.js:28-44 | for the resize (250), mutation (100) and scroll (50) delays, three calls with an early tick between them give one run, `wait` after the last call |
| `Debounce.Debouncer.constructor` | responsive-background.js:47-48 | a fresh handler has nothing pending |
| `Debounce.Debouncer.Trigger` | responsive-background.js:54-55 | clears the pending timeout and sets one `wait` after now (the scroll handler at lines 41-44 does the same with wait 50) |
| `Debounce.Debouncer.Tick` | responsive-background.js:50-53 | fires exactly when a deadline is pending and due, then clears it |

## Left out

- Controller.ResponsiveBackgroundManager.constructor: requires a page without a `background-extension` node. The source never checks this; it rests on the manager being the only writer of that node. The "at most one extension node" invariant depends on it, because each cycle removes only the first node carrying the id.
- Controller.UpdateIdempotent: takes the content measurements as an input that does not depend on the state. In a browser, the fallback heights (`body.scrollHeight`/`offsetHeight` and the root's, lines 105-111) grow with the `minHeight` the previous cycle wrote (lines 154 and 230). Line 95 prefers `.main-content` to avoid exactly this. On the fallback path, a cycle that writes `100vh` can make the next cycle's content height reach the viewport height, so two cycles agree only when the page's measured heights are unchanged by the first one. With `.main-content` present, the stated idempotence is what the page sees.

- `script.js` is not part of this model. It holds hover, click, scroll and eye-tracking handlers that only set styles.
- Asynchronous image loading is reduced to `OnImageLoad`, which receives the natural width and height as parameters. The load itself is browser I/O.
- The natural image width must be positive once loaded. The code divides by it without a check, so the model makes it a precondition.
- `setupEventListeners` (lines 23-45) is left out. Its `DOMContentLoaded`, `resize` and `scroll` listeners and the `MutationObserver` are browser wiring. The link between a `Debouncer` firing and a call to `UpdateBackground` is therefore not modelled.
- Real timers are left out. `setTimeout`/`clearTimeout` become `Trigger` and `Tick` on an integer clock. The delays 250, 100 and 50 are kept as constants.
- `console.log` diagnostics (lines 159-167, 197-201, 235-239) are left out. This includes the size class computed in the disabled path only for logging.
- CSS strings are left out. The image URLs, `backgroundSize`, `backgroundRepeat`, `backgroundAttachment`, the centring transform and the extension's `left`/`width`/`z-index` declarations are constants that no property depends on. Only position Y, `top`, `height` and `minHeight` are modelled.
- IEEE-754 rounding of `windowHeight * 0.12`, `windowHeight * 0.1` and the aspect-ratio division is left out. The model uses exact reals.
- The null check at line 126 is omitted. Line 121 has already returned when the image is not loaded, so that branch cannot be taken. The placement function still models the `null` result of line 60.
- The document is reduced to the body's children, although `getElementById` searches the whole document. The extension node is only ever appended to the body, so every node with that id that the manager creates is a body child.
- The mobile branch at lines 76-77 and the disabled path at lines 216-222 repeat the placement's start-offset expression. The model defines that expression once, as `Geometry.BackgroundStartY`, and both paths use it.
