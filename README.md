# elm-highlight: selection offsets

A model of the `elm-highlight` custom element (`src/elmHighlight.js`). The
element watches the document selection. Whenever the selection changes, it
reports each boundary of the first selection range as a number: the
`offsetUntil` of the boundary's container node plus the boundary's own offset
within that container. `offsetUntil(node)` is the number of characters and
embedded objects that come before `node` in the element's subtree, in
document order. The sum is a character position only when the container is
a text node. For an element container, the host's boundary offset counts
child nodes, not characters. The element also has a `content` property
that clears the selection whenever it is set to a new value.

The model has three modules:

- `DomTree` (`dom_tree.dfy`) is a frozen snapshot of the element's subtree,
  a tree of `Text(id, len)` and `Element(id, children)` nodes. An element
  with no children stands for a childless non-text node such as an image or
  an iframe. The `id` is node identity, which the source tests with `===`.
  `PreOrder` lists the nodes in document order. A node's `Weight` is what
  the walk adds when it visits the node. `TotalWeight` is the content length
  defined on the tree shape itself.
- `OffsetIndex` (`offset_index.dfy`) holds `offsetUntil`. The method
  `OffsetUntil` keeps the source's explicit stack as a `seq` and pushes
  children in reverse with a descending `for` loop. It is proved equal to
  `Offset`, the sum of weights along the pre-order up to the target, and the
  lemmas state what that sum means.
- `ElmHighlight` (`elm_highlight.dfy`) holds the element as a class. It has
  the `content` field, the shared document `Selection` object (null when the
  host has no selection API) and the `selectionchange` handler, which
  returns the `select` event's detail, if there is one, instead of
  dispatching it.

The source compares node identity by reference. The lemmas that relate an
offset to a position in document order therefore assume `Distinct`: no node
id occurs twice in the pre-order, just as no DOM node occurs twice in a
tree. `OffsetUntil` itself assumes nothing about ids.

The source has no range clamping. The handler asks for `getRangeAt(0)` and
uses that range's boundaries as they are, so the model does the same. A
boundary container outside the element is therefore not clamped. Its
offset is the element's whole length, as `OffsetNotFound` states.

## Model

| member | source | states |
|---|---|---|
| `OffsetIndex.OffsetUntil` | src/elmHighlight.js:70-100 | The stack walk returns exactly the sum of the weights of the pre-order nodes before the first node that is the target. The weights are: a text node's length, 1 for a childless element, 0 for an element with children. |
| `OffsetIndex.OffsetOfContainer` | src/elmHighlight.js:71-79 | `offsetUntil` of the element itself is 0, because the element is popped first. |
| `OffsetIndex.OffsetIsPrefixSum` | src/elmHighlight.js:74-96 | For a node of the subtree (ids distinct), the offset equals the sum of the weights of all nodes before it in document order. |
| `OffsetIndex.OffsetNotFound` | src/elmHighlight.js:74-99 | A target that is not in the subtree gives the subtree's whole content length. |
| `OffsetIndex.OffsetBounds` | src/elmHighlight.js:71-99 | Every result lies between 0 and the subtree's content length. |
| `OffsetIndex.OffsetMonotone` | src/elmHighlight.js:74-99 | If node a comes before node b in document order, the offset of a is at most the offset of b. |
| `OffsetIndex.OffsetOfElementIsFirstChild` | src/elmHighlight.js:77-95 | An element with children has the same offset as its first child: its own content is not counted. |
| `OffsetIndex.OffsetSubtreeSpan` | src/elmHighlight.js:80-96 | Every node inside a target's subtree has an offset between the target's offset and that offset plus the target's length. The node right after the subtree is exactly the target's length further on. |
| `OffsetIndex.ExampleOffsets` | src/elmHighlight.js:80-89 | For children "ab", an image and "cde": the image is at 2, "cde" at 3, the element and "ab" at 0, an outside node at 6, and the total is 6. |
| `OffsetIndex.SumUntilAppend` | src/elmHighlight.js:74-96 | A walk over a prefix that does not contain the target adds the prefix's whole weight, then continues with the rest. |
| `DomTree.PreOrderWeight` | src/elmHighlight.js:80-96 | Adding up the weights along document order gives the tree's length: an element with children has exactly the sum of its children's lengths (no gap, no overlap). |
| `DomTree.SubtreeContiguous` | src/elmHighlight.js:91-95 | Pushing children in reverse makes them pop start to end: each node's subtree is one contiguous block of the document order, starting at the node. |
| `DomTree.FirstChildFollows` | src/elmHighlight.js:91-95 | In document order, an element with children is followed directly by its first child. |
| `ElmHighlight.Highlight.constructor` | src/elmHighlight.js:2-5 | A new element has `content` null. |
| `ElmHighlight.Highlight.Content` | src/elmHighlight.js:39-41 | The `content` getter returns the stored content. |
| `ElmHighlight.Highlight.SetContent` | src/elmHighlight.js:39-48 | After the set, the getter returns the new value. A different value clears the selection. The same value leaves the selection unchanged. |
| `ElmHighlight.Highlight.GetSelectionRange` | src/elmHighlight.js:50-56 | The result is a range exactly when a selection object exists with `rangeCount > 0`, and then it is range 0. |
| `ElmHighlight.Highlight.ClearSelection` | src/elmHighlight.js:58-68 | When a selection object exists, it has no ranges afterwards. |
| `ElmHighlight.Highlight.OnSelectionChange` | src/elmHighlight.js:15-33 | An event exists exactly when a range exists. Each boundary keeps its container node and has offset `offsetUntil(container) + boundary offset`. The range is passed on as `originalEvent`. The event offsets are bounded by the content length plus the boundary offset. |

## Left out

- Custom element registration (`customElements.define`) and `HTMLElement` construction are browser plumbing.
- `document.addEventListener`, `dispatchEvent`/`CustomEvent` and `console.log` are event I/O. The handler returns the event detail it would dispatch instead.
- There is no "selection outside the element gives no event" rule. The source's check of the selection's owner is commented out, so, like the source, `OnSelectionChange` yields an event for every range, including one that lies wholly outside the element.
- A boundary whose container is an element is not converted. The host's boundary offset then counts child nodes, and the source adds it to a character offset unchanged. The model reproduces that sum and does not turn the child index into characters.
- `window.getSelection`/`document.selection` are foreign browser APIs. The selection is a shared `Selection` object holding its ranges, or null when neither API exists. `getRangeAt(0)` is the first range.
- ElmHighlight.Highlight.ClearSelection: always clears when a selection object exists. The source does nothing for an object that has neither `removeAllRanges` nor `empty`, and that case is not modelled.
- ElmHighlight.Highlight.SetContent: compares values with Dafny equality. JavaScript's `!==` is reference identity on objects, and `NaN !== NaN` would clear the selection on every set; neither is modelled.
- Range clamping to the element is not in the source and is not modelled. The handler uses the raw range.
- Stale node references and content changed between the selection and the read are not modelled. The model walks one immutable snapshot of the tree.
- Node kinds other than text and element (comments, processing instructions) are not distinguished. In the source a comment counts like any childless non-text node, so it is an `Element` with no children here.
