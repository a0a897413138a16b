/** The rectangle a group takes: around its members with a margin, and nothing wider. */
module GroupGeometry {
  import opened Outcomes
  import opened Documents
  import opened Schemas
  import opened Operations
  import opened Regrouping

  /** A rectangle lies inside another with 24 at the left, right and bottom, and 52 at the top, where the title goes. */
  predicate Inside(r: Rect, outer: Rect) {
    && outer.x + 24.0 <= r.x && outer.y + 52.0 <= r.y
    && r.x + r.w + 24.0 <= outer.x + outer.w && r.y + r.h + 24.0 <= outer.y + outer.h
  }

  /** Every listed node lies inside, and on each side some listed node has exactly the margin. */
  ghost predicate FitsAround(nodes: map<string, Node>, ids: seq<string>, outer: Rect) {
    && (forall i :: 0 <= i < |ids| ==> ids[i] in nodes && Inside(nodes[ids[i]].rect, outer))
    && (exists i :: 0 <= i < |ids| && nodes[ids[i]].rect.x == outer.x + 24.0)
    && (exists i :: 0 <= i < |ids| && nodes[ids[i]].rect.y == outer.y + 52.0)
    && (exists i :: 0 <= i < |ids| && nodes[ids[i]].rect.x + nodes[ids[i]].rect.w + 24.0 == outer.x + outer.w)
    && (exists i :: 0 <= i < |ids| && nodes[ids[i]].rect.y + nodes[ids[i]].rect.h + 24.0 == outer.y + outer.h)
  }

  predicate Within(r: Rect, b: Box) {
    b.minX <= r.x && b.minY <= r.y && r.x + r.w <= b.maxX && r.y + r.h <= b.maxY
  }

  /** The sides of the bounding box are those of listed nodes, and no listed node reaches past them. */
  ghost predicate Bounds(nodes: map<string, Node>, ids: seq<string>, b: Box) {
    && (forall i :: 0 <= i < |ids| ==> ids[i] in nodes && Within(nodes[ids[i]].rect, b))
    && (exists i :: 0 <= i < |ids| && nodes[ids[i]].rect.x == b.minX)
    && (exists i :: 0 <= i < |ids| && nodes[ids[i]].rect.y == b.minY)
    && (exists i :: 0 <= i < |ids| && nodes[ids[i]].rect.x + nodes[ids[i]].rect.w == b.maxX)
    && (exists i :: 0 <= i < |ids| && nodes[ids[i]].rect.y + nodes[ids[i]].rect.h == b.maxY)
  }

  lemma GrowBounds(nodes: map<string, Node>, front: seq<string>, b: Box, id: string)
    requires Bounds(nodes, front, b) && id in nodes
    ensures Grow(Some(b), nodes[id].rect).Some? && Bounds(nodes, front + [id], Grow(Some(b), nodes[id].rect).value)
  {
    var ids, c := front + [id], Grow(Some(b), nodes[id].rect).value;
    var n := |front|;
    assert ids[n] == id && forall i :: 0 <= i < n ==> ids[i] == front[i];
    var i1 :| 0 <= i1 < n && nodes[front[i1]].rect.x == b.minX;
    var i2 :| 0 <= i2 < n && nodes[front[i2]].rect.y == b.minY;
    var i3 :| 0 <= i3 < n && nodes[front[i3]].rect.x + nodes[front[i3]].rect.w == b.maxX;
    var i4 :| 0 <= i4 < n && nodes[front[i4]].rect.y + nodes[front[i4]].rect.h == b.maxY;
    assert nodes[ids[i1]].rect.x == c.minX || nodes[ids[n]].rect.x == c.minX;
    assert nodes[ids[i2]].rect.y == c.minY || nodes[ids[n]].rect.y == c.minY;
    assert nodes[ids[i3]].rect.x + nodes[ids[i3]].rect.w == c.maxX || nodes[ids[n]].rect.x + nodes[ids[n]].rect.w == c.maxX;
    assert nodes[ids[i4]].rect.y + nodes[ids[i4]].rect.h == c.maxY || nodes[ids[n]].rect.y + nodes[ids[n]].rect.h == c.maxY;
  }

  lemma {:induction false} BoxBounds(nodes: map<string, Node>, ids: seq<string>)
    requires ids != [] && forall i :: 0 <= i < |ids| ==> ids[i] in nodes
    ensures BoxOf(nodes, ids).Some? && Bounds(nodes, ids, BoxOf(nodes, ids).value)
    decreases |ids|
  {
    hide Grow, Bounds;
    var n := |ids| - 1;
    if n == 0 {
      OneNodeBox(nodes, ids);
    } else {
      BoxBounds(nodes, ids[..n]);
      GrowBounds(nodes, ids[..n], BoxOf(nodes, ids[..n]).value, ids[n]);
      assert ids == ids[..n] + [ids[n]];
    }
  }

  lemma OneNodeBox(nodes: map<string, Node>, ids: seq<string>)
    requires |ids| == 1 && ids[0] in nodes
    ensures BoxOf(nodes, ids).Some? && Bounds(nodes, ids, BoxOf(nodes, ids).value)
  {
    assert ids[..0] == [];
    assert BoxOf(nodes, []) == None;
    var r := nodes[ids[0]].rect;
    assert BoxOf(nodes, ids) == Some(Box(r.x, r.y, r.x + r.w, r.y + r.h));
  }

  /** There is a rectangle that fits around the listed nodes, and only one. */
  lemma OneFits(nodes: map<string, Node>, ids: seq<string>) returns (r: Rect)
    requires ids != [] && forall i :: 0 <= i < |ids| ==> ids[i] in nodes
    ensures FitsAround(nodes, ids, r) && forall q :: FitsAround(nodes, ids, q) ==> q == r
    ensures forall own :: RectAround(own, None, BoxOf(nodes, ids)) == r
  {
    BoxBounds(nodes, ids);
    var b := BoxOf(nodes, ids).value;
    r := Rect(b.minX - 24.0, b.minY - 52.0, b.maxX - b.minX + 48.0, b.maxY - b.minY + 76.0);
  }

  /**
   * What grouping does to rectangles: the group takes the given one, or else the one that fits around the listed nodes,
   * if that is in range; no other node is moved or resized.
   */
  lemma GroupTakesRect(d: Doc, ids: seq<string>, group: string, given: Option<Rect>, r: Rect)
    requires ApplyGroup(d, ids, group, given).Ok?
    requires if given.Some? then r == given.value else FitsAround(d.nodes, ids, r)
    ensures group in d.nodes
    ensures var after := ApplyGroup(d, ids, group, given).value.nodes;
      && after.Keys == d.nodes.Keys
      && after[group].rect == (if RectOk(r) then r else d.nodes[group].rect)
      && forall k :: k in d.nodes && k != group ==> after[k].rect == d.nodes[k].rect
  {
    hide Adopt, FitsAround, RectAround, BoxOf, RectOk;
    AdoptIs(d.nodes, ids, group);
    if given.Some? {
      GivenRect(d.nodes[group].rect, r, BoxOf(d.nodes, ids));
    } else {
      var q := OneFits(d.nodes, ids);
    }
  }

  lemma GivenRect(own: Rect, given: Rect, box: Option<Box>)
    ensures RectAround(own, Some(given), box) == given
  {
  }
}
