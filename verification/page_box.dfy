/** Where the visible signature goes on a page, in exact arithmetic. */
module PageBox {
  import opened Records

  const WIDTH: int := 250
  const HEIGHT: int := 110
  const MARGIN: real := 18.0
  const SMALLEST: real := 4.0

  // ---------------------------------------------------------------- the page's box

  /** A dictionary entry: numbers, or something that is not a list of numbers. */
  datatype Entry = Unreadable | Numbers(values: seq<real>)

  /** A page-tree node and its parent; a parent need not be a dictionary. */
  datatype Node = Node(entries: map<string, Entry>, parent: Parent)

  datatype Parent = NoParent | NotADictionary | In(node: Node)

  /** The page, its parent, its parent's parent, and so on. */
  function Ancestors(n: Node): (s: seq<Node>)
    ensures s != [] && s[0] == n
  {
    [n] + if n.parent.In? then Ancestors(n.parent.node) else []
  }

  function Coordinates(e: Entry): Option<seq<real>> {
    if e.Numbers? && |e.values| == 4 then Some(e.values) else None
  }

  /** `box` comes from the nearest node that has the key, which decides alone. */
  predicate FromNearest(n: Node, key: string, box: Option<seq<real>>) {
    var chain := Ancestors(n);
    if forall i | 0 <= i < |chain| :: key !in chain[i].entries then box.None?
    else exists i | 0 <= i < |chain| ::
      (key in chain[i].entries && box == Coordinates(chain[i].entries[key])
       && forall j | 0 <= j < i :: key !in chain[j].entries)
  }

  method PageBoxValue(page: Node, key: string) returns (box: Option<seq<real>>)
    ensures FromNearest(page, key, box)
  {
    ghost var chain := Ancestors(page);
    ghost var i := 0;
    var current := page;
    while true
      invariant 0 <= i < |chain| && chain[i..] == Ancestors(current)
      invariant forall j | 0 <= j < i :: key !in chain[j].entries
      decreases current
    {
      assert chain[i] == chain[i..][0];
      if key in current.entries {
        var value := current.entries[key];
        return if value.Numbers? && |value.values| == 4 then Some(value.values) else None;
      }
      if !current.parent.In? {
        assert |chain[i..]| == 1;
        return None;
      }
      assert chain[i..][1..] == chain[i + 1..];
      current := current.parent.node;
      i := i + 1;
    }
  }

  /** Inheritance, node by node: a node's own entry decides, even when it is no list of four numbers;
      without one the parent decides, and without a parent there is no box. */
  lemma BoxesAreInherited(n: Node, key: string, box: Option<seq<real>>)
    requires FromNearest(n, key, box)
    ensures key in n.entries ==>
      box == if n.entries[key].Numbers? && |n.entries[key].values| == 4 then Some(n.entries[key].values) else None
    ensures key !in n.entries && n.parent.In? ==> FromNearest(n.parent.node, key, box)
    ensures key !in n.entries && !n.parent.In? ==> box.None?
  {
    var chain := Ancestors(n);
    if key !in n.entries && n.parent.In? {
      var rest := Ancestors(n.parent.node);
      assert forall i | 0 <= i < |rest| :: rest[i] == chain[i + 1];
      if i :| 0 <= i < |chain| && key in chain[i].entries && box == Coordinates(chain[i].entries[key])
              && forall j | 0 <= j < i :: key !in chain[j].entries {
        assert rest[i - 1] == chain[i];
      }
    }
  }

  // ---------------------------------------------------------------- the visible box

  datatype Box = Box(left: int, bottom: int, right: int, top: int)

  function Min(a: real, b: real): real {
    if a <= b then a else b
  }

  function Max(a: real, b: real): real {
    if a >= b then a else b
  }

  function Floor(x: real): (n: int)
    ensures n as real <= x < n as real + 1.0
  {
    x.Floor
  }

  function Ceil(x: real): (n: int)
    ensures n as real - 1.0 < x <= n as real
  {
    -(-x).Floor
  }

  function MarginOf(width: real, height: real): real {
    Min(MARGIN, Min(Max(1.0, width * 0.04), Max(1.0, height * 0.04)))
  }

  function Width(box: seq<real>): real
    requires |box| == 4
  {
    Max(box[0], box[2]) - Min(box[0], box[2])
  }

  function Height(box: seq<real>): real
    requires |box| == 4
  {
    Max(box[1], box[3]) - Min(box[1], box[3])
  }

  /** Why no field can be placed. */
  datatype Refusal = NoPageBox | TooSmall | TooSmallInside

  datatype Placement = Placed(box: Box) | Refused(refusal: Refusal)

  predicate LargeEnough(b: seq<real>)
    requires |b| == 4
  {
    Width(b) >= SMALLEST && Height(b) >= SMALLEST
  }

  /** A field inside the page by its margin, in the bottom right corner: not empty, at most
      250 by 110, and smaller only where the margins leave no more room. */
  predicate Fits(b: seq<real>, f: Box)
    requires |b| == 4
  {
    var m := MarginOf(Width(b), Height(b));
    && f.left < f.right <= f.left + WIDTH && f.bottom < f.top <= f.bottom + HEIGHT
    && Min(b[0], b[2]) + m <= f.left as real && f.right as real <= Max(b[0], b[2]) - m
    && Min(b[1], b[3]) + m <= f.bottom as real && f.top as real <= Max(b[1], b[3]) - m
    && Max(b[0], b[2]) - m < (f.right + 1) as real
    && (f.bottom - 1) as real < Min(b[1], b[3]) + m
    && (f.right - f.left == WIDTH || (f.left - 1) as real < Min(b[0], b[2]) + m)
    && (f.top - f.bottom == HEIGHT || Max(b[1], b[3]) - m < (f.top + 1) as real)
  }

  /** A page has at most one such field. */
  lemma FieldIsUnique(b: seq<real>, f: Box, g: Box)
    requires |b| == 4 && Fits(b, f) && Fits(b, g)
    ensures f == g
  {
    assert f.right == g.right && f.bottom == g.bottom;
  }

  /** The outcome for a page with this box. */
  predicate PlacedIn(box: Option<seq<real>>, p: Placement)
    requires box.Some? ==> |box.value| == 4
  {
    if box.None? then p == Refused(NoPageBox)
    else if !LargeEnough(box.value) then p == Refused(TooSmall)
    else p.Placed? && Fits(box.value, p.box)
  }

  /** The crop box decides, or the media box when there is no usable crop box; every page box
      at least 4 by 4 gets a field, so the second "too small" rejection never happens. */
  method VisibleSignatureBox(page: Node) returns (p: Placement)
    ensures exists crop, media ::
      (FromNearest(page, "/CropBox", crop) && FromNearest(page, "/MediaBox", media)
       && PlacedIn(if crop.Some? then crop else media, p))
  {
    var crop := PageBoxValue(page, "/CropBox");
    var media := PageBoxValue(page, "/MediaBox");
    var pageBox := if crop.Some? then crop else media;
    if pageBox.None? {
      return Refused(NoPageBox);
    }
    p := PlaceIn(pageBox.value);
  }

  lemma LimitsLeaveRoom(left: real, right: real, bottom: real, top: real)
    requires right - left >= SMALLEST && top - bottom >= SMALLEST
    ensures var margin := MarginOf(right - left, top - bottom);
      Ceil(left + margin) < Floor(right - margin) && Ceil(bottom + margin) < Floor(top - margin)
  {
    var margin := MarginOf(right - left, top - bottom);
    MarginLeavesRoom(right - left, top - bottom);
    RoomBetween(left + margin, right - margin);
    RoomBetween(bottom + margin, top - margin);
  }

  method PlaceIn(box: seq<real>) returns (p: Placement)
    requires |box| == 4
    ensures PlacedIn(Some(box), p)
  {
    var left, right := Min(box[0], box[2]), Max(box[0], box[2]);
    var bottom, top := Min(box[1], box[3]), Max(box[1], box[3]);
    if right - left < SMALLEST || top - bottom < SMALLEST {
      return Refused(TooSmall);
    }
    var margin := MarginOf(right - left, top - bottom);
    LimitsLeaveRoom(left, right, bottom, top);
    var leftLimit, rightLimit := Ceil(left + margin), Floor(right - margin);
    var bottomLimit, topLimit := Ceil(bottom + margin), Floor(top - margin);
    if rightLimit <= leftLimit || topLimit <= bottomLimit {
      assert false;
      return Refused(TooSmallInside);
    }
    var field := ChooseField(box, leftLimit, rightLimit, bottomLimit, topLimit);
    return Placed(field);
  }

  /** The field between the limits the margins leave. */
  method ChooseField(ghost b: seq<real>, leftLimit: int, rightLimit: int, bottomLimit: int, topLimit: int)
    returns (field: Box)
    requires |b| == 4 && leftLimit < rightLimit && bottomLimit < topLimit
    requires var m := MarginOf(Width(b), Height(b));
      && leftLimit == Ceil(Min(b[0], b[2]) + m) && rightLimit == Floor(Max(b[0], b[2]) - m)
      && bottomLimit == Ceil(Min(b[1], b[3]) + m) && topLimit == Floor(Max(b[1], b[3]) - m)
    ensures Fits(b, field)
  {
    var width := if WIDTH <= rightLimit - leftLimit then WIDTH else rightLimit - leftLimit;
    var height := if HEIGHT <= topLimit - bottomLimit then HEIGHT else topLimit - bottomLimit;
    field := Box(rightLimit - width, bottomLimit, rightLimit, bottomLimit + height);
  }

  /** The outcome depends on the four edges only. */
  lemma EdgesDecide(b: seq<real>, c: seq<real>, p: Placement)
    requires |b| == |c| == 4
    requires Min(b[0], b[2]) == Min(c[0], c[2]) && Max(b[0], b[2]) == Max(c[0], c[2])
    requires Min(b[1], b[3]) == Min(c[1], c[3]) && Max(b[1], b[3]) == Max(c[1], c[3])
    ensures PlacedIn(Some(b), p) == PlacedIn(Some(c), p)
  {
    assert MarginOf(Width(b), Height(b)) == MarginOf(Width(c), Height(c));
  }

  /** The corners of the page box may come in any order. */
  lemma CornersInAnyOrder(b: seq<real>, p: Placement)
    requires |b| == 4
    ensures PlacedIn(Some(b), p) == PlacedIn(Some([b[2], b[1], b[0], b[3]]), p)
      == PlacedIn(Some([b[0], b[3], b[2], b[1]]), p)
  {
    EdgesDecide(b, [b[2], b[1], b[0], b[3]], p);
    EdgesDecide(b, [b[0], b[3], b[2], b[1]], p);
  }

  /** Between limits at least two apart there is room for an integer interval. */
  lemma RoomBetween(low: real, high: real)
    requires high - low >= 2.0
    ensures Ceil(low) < Floor(high)
  {
  }

  lemma MarginLeavesRoom(width: real, height: real)
    requires width >= SMALLEST && height >= SMALLEST
    ensures var m := MarginOf(width, height);
      0.0 < m <= MARGIN && width - 2.0 * m >= 2.0 && height - 2.0 * m >= 2.0
  {
    SideLeavesRoom(width);
    SideLeavesRoom(height);
  }

  lemma SideLeavesRoom(side: real)
    requires side >= SMALLEST
    ensures 1.0 <= Max(1.0, side * 0.04) && side - 2.0 * Max(1.0, side * 0.04) >= 2.0
  {
  }

  /** A page is refused exactly when one of its sides is under four points. */
  lemma TooSmallPagesAreRefused(b: seq<real>, p: Placement)
    requires |b| == 4 && PlacedIn(Some(b), p)
    ensures p == Refused(TooSmall) <==> -4.0 < b[2] - b[0] < 4.0 || -4.0 < b[3] - b[1] < 4.0
    ensures p.Refused? ==> p == Refused(TooSmall)
  {
  }

  /** On an A4 page of 595 by 842 points the field is 250 by 110, 18 points from the corner. */
  lemma FieldOnA4(p: Placement)
    requires PlacedIn(Some([0.0, 0.0, 595.0, 842.0]), p)
    ensures p == Placed(Box(327, 18, 577, 128))
  {
  }

  /** On a page too small for the full field, it takes what the margins leave. */
  lemma FieldOnASmallPage(p: Placement)
    requires PlacedIn(Some([0.0, 0.0, 100.0, 50.0]), p)
    ensures p == Placed(Box(2, 2, 98, 48))
  {
  }
}
