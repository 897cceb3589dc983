/** The `elm-highlight` element: its `content` property, which clears the
    document selection when it changes, and its `selectionchange` handler,
    which turns the first selection range into linear offsets. */
module ElmHighlight {
  import opened DomTree
  import opened OffsetIndex

  datatype Option<T> = None | Some(value: T)

  /** A selection range as the host reports it: two boundary points, each
      a container node and an offset within it. */
  datatype Range = Range(startContainer: Id, startOffset: nat, endContainer: Id, endOffset: nat)

  /** One boundary of a `select` event: the range's own container node and
      the linear offset within the element. */
  datatype Boundary = Boundary(node: Id, offset: nat)

  /** The detail of a `select` event. */
  datatype SelectDetail = SelectDetail(start: Boundary, end: Boundary, originalEvent: Range)

  /** The document's selection object; `rangeCount` is `|ranges|`. */
  class Selection {
    var ranges: seq<Range>

    constructor (ranges: seq<Range>)
      ensures this.ranges == ranges
    {
      this.ranges := ranges;
    }

    /** `removeAllRanges()` (or the older `empty()`). */
    method RemoveAllRanges()
      modifies this
      ensures ranges == []
    {
      ranges := [];
    }
  }

  class Highlight<C(==)> {
    /** The element itself together with its subtree. */
    const tree: Node
    /** The host's selection object; null when the host offers none. */
    const sel: Selection?
    var content: Option<C>

    constructor (tree: Node, sel: Selection?)
      ensures this.tree == tree && this.sel == sel
      ensures content == None
    {
      this.tree := tree;
      this.sel := sel;
      content := None;
    }

    /** The `content` getter. */
    function Content(): Option<C>
      reads this
    {
      content
    }

    /** The `content` setter: a different value is stored and clears the
        selection; the same value changes nothing. */
    method SetContent(c: Option<C>)
      modifies this, sel
      ensures Content() == c
      ensures old(content) != c && sel != null ==> sel.ranges == []
      ensures old(content) == c && sel != null ==> sel.ranges == old(sel.ranges)
    {
      if content != c {
        content := c;
        ClearSelection();
      }
    }

    /** `getSelectionRange()`: the first range, when there is one. */
    method GetSelectionRange() returns (r: Option<Range>)
      ensures r.Some? <==> sel != null && |sel.ranges| > 0
      ensures r.Some? ==> r.value == sel.ranges[0]
    {
      if sel != null && |sel.ranges| > 0 {
        r := Some(sel.ranges[0]);
      } else {
        r := None;
      }
    }

    /** `clearSelection()`. */
    method ClearSelection()
      modifies sel
      ensures sel != null ==> sel.ranges == []
    {
      if sel != null {
        sel.RemoveAllRanges();
      }
    }

    /** The `selectionchange` handler: the `select` event it dispatches, if
        any. An event exists exactly when the selection has a range; each
        boundary keeps its container and gets the container's offset plus
        the boundary's own offset. */
    method OnSelectionChange() returns (event: Option<SelectDetail>)
      ensures event.Some? <==> sel != null && |sel.ranges| > 0
      ensures event.Some? ==>
        var r := sel.ranges[0];
        && event.value.originalEvent == r
        && event.value.start.node == r.startContainer
        && event.value.start.offset == Offset(tree, r.startContainer) + r.startOffset
        && event.value.end.node == r.endContainer
        && event.value.end.offset == Offset(tree, r.endContainer) + r.endOffset
      ensures event.Some? ==>
        && event.value.start.offset <= TotalWeight(tree) + sel.ranges[0].startOffset
        && event.value.end.offset <= TotalWeight(tree) + sel.ranges[0].endOffset
    {
      var range := GetSelectionRange();
      if range.Some? {
        var r := range.value;
        var startBase := OffsetUntil(tree, r.startContainer);
        var endBase := OffsetUntil(tree, r.endContainer);
        OffsetBounds(tree, r.startContainer);
        OffsetBounds(tree, r.endContainer);
        event := Some(SelectDetail(
          Boundary(r.startContainer, startBase + r.startOffset),
          Boundary(r.endContainer, endBase + r.endOffset),
          r));
      } else {
        event := None;
      }
    }
  }
}
