/**
 * The WebAssembly front end of the renderer: the attribute records a caller
 * sends, their validation into drawable shapes (colour text must resolve to
 * an RGBA colour, style text defaults to stroke), the installation of the
 * resulting shape on a scene node, and the rasterization walk that paints
 * every descendant of the root, in pre-order, onto one pixmap.
 *
 * The CSS colour parser, the pixel-drawing primitives, PNG and base64
 * encoding are foreign code; they appear here as a parser function
 * parameter, a trace of painted shapes and an encoder function parameter.
 */
module SoftSkia {
  import opened Wrappers

  newtype u8 = x: int | 0 <= x < 0x100
  newtype u32 = x: int | 0 <= x < 0x1_0000_0000

  /** A `[u32; 2]` coordinate pair. */
  datatype Point = Point(px: u32, py: u32)

  // ---------------------------------------------------------------------
  // Attribute records as decoded from the caller's message
  // ---------------------------------------------------------------------

  datatype WasmRectAttr = WasmRectAttr(width: u32, height: u32, x: u32, y: u32, color: string, style: string)
  datatype WasmCircleAttr = WasmCircleAttr(cx: u32, cy: u32, r: u32, color: string, style: string)
  datatype WasmRoundRectAttr = WasmRoundRectAttr(width: u32, height: u32, r: u32, x: u32, y: u32, color: string, style: string)
  /** A line has no style text. */
  datatype WasmLineAttr = WasmLineAttr(p1: Point, p2: Point, color: string, strokeWidth: u32)
  datatype WasmPointsAttr = WasmPointsAttr(points: seq<Point>, color: string, strokeWidth: u32, style: string)

  /** The tagged union of attribute records. */
  datatype WasmShapesAttr =
    | R(rectAttr: WasmRectAttr)
    | C(circleAttr: WasmCircleAttr)
    | RR(roundRectAttr: WasmRoundRectAttr)
    | L(lineAttr: WasmLineAttr)
    | P(pointsAttr: WasmPointsAttr)

  datatype WasmShape = WasmShape(attr: WasmShapesAttr)

  /** The colour text carried by every variant. */
  function ColorText(attr: WasmShapesAttr): string
  {
    match attr
    case R(a) => a.color
    case C(a) => a.color
    case RR(a) => a.color
    case L(a) => a.color
    case P(a) => a.color
  }

  // ---------------------------------------------------------------------
  // Drawable shapes
  // ---------------------------------------------------------------------

  /** Four 8-bit channels, as built by `ColorU8::from_rgba`. */
  datatype ColorU8 = ColorU8(r: u8, g: u8, b: u8, a: u8)

  datatype PaintStyle = Stroke | Fill

  datatype Rect = Rect(x: u32, y: u32, width: u32, height: u32, color: ColorU8, style: PaintStyle)
  datatype Circle = Circle(cx: u32, cy: u32, r: u32, color: ColorU8, style: PaintStyle)
  datatype RoundRect = RoundRect(x: u32, y: u32, r: u32, width: u32, height: u32, color: ColorU8, style: PaintStyle)
  datatype Line = Line(p1: Point, p2: Point, strokeWidth: u32, color: ColorU8)
  datatype Points = Points(points: seq<Point>, strokeWidth: u32, color: ColorU8, style: PaintStyle)

  datatype Shapes =
    | R(rect: Rect)
    | C(circle: Circle)
    | RR(roundRect: RoundRect)
    | L(line: Line)
    | P(pointSet: Points)

  function ColorOf(s: Shapes): ColorU8
  {
    match s
    case R(x) => x.color
    case C(x) => x.color
    case RR(x) => x.color
    case L(x) => x.color
    case P(x) => x.color
  }

  /** The paint style of a shape; a line has none. */
  function StyleOf(s: Shapes): Option<PaintStyle>
  {
    match s
    case R(x) => Some(x.style)
    case C(x) => Some(x.style)
    case RR(x) => Some(x.style)
    case L(_) => None
    case P(x) => Some(x.style)
  }

  /** Whether an attribute record and a shape carry the same tag. */
  predicate SameTag(attr: WasmShapesAttr, s: Shapes)
  {
    (attr.R? <==> s.R?) && (attr.C? <==> s.C?) && (attr.RR? <==> s.RR?)
    && (attr.L? <==> s.L?) && (attr.P? <==> s.P?)
  }

  // ---------------------------------------------------------------------
  // Colour resolution
  // ---------------------------------------------------------------------

  /** The `RGBA` value of the CSS parser. */
  datatype Rgba = Rgba(red: u8, green: u8, blue: u8, alpha: u8)

  /** A successfully parsed CSS colour: `currentcolor` or an RGBA colour. */
  datatype CssColor = CurrentColor | RGBA(rgba: Rgba)

  /** The outcome of `Color::parse` on a colour text. */
  datatype ParseResult = Ok(color: CssColor) | Err

  /** The foreign CSS colour parser, as a total function of the text. */
  type ColorParser = string -> ParseResult

  /**
   * The colour a parse outcome yields for a shape: only an RGBA value does,
   * channel for channel; a parse error and a non-RGBA colour give none.
   */
  function ResolveColor(parsed: ParseResult): (c: Option<ColorU8>)
    ensures c.Some? <==> parsed.Ok? && parsed.color.RGBA?
    ensures c.Some? ==> ToRgba(c.value) == parsed.color.rgba
  {
    match parsed
    case Ok(RGBA(rgba)) => Some(ColorU8(rgba.red, rgba.green, rgba.blue, rgba.alpha))
    case _ => None
  }

  /** The RGBA value whose channels are those of `c`. */
  function ToRgba(c: ColorU8): Rgba
  {
    Rgba(c.r, c.g, c.b, c.a)
  }

  /** Resolving the RGBA value of a colour gives that colour back. */
  lemma ResolveColorToRgba(c: ColorU8)
    ensures ResolveColor(Ok(RGBA(ToRgba(c)))) == Some(c)
  {
  }

  // ---------------------------------------------------------------------
  // Style text
  // ---------------------------------------------------------------------

  /** "fill" gives `Fill`; "stroke" and every other text give `Stroke`. */
  function StyleFromText(style: string): (p: PaintStyle)
    ensures p == Fill <==> style == "fill"
    ensures p == Stroke <==> style != "fill"
  {
    if style == "stroke" then Stroke
    else if style == "fill" then Fill
    else Stroke
  }

  /** The canonical text of a paint style. */
  function StyleText(p: PaintStyle): (s: string)
    ensures s == "stroke" || s == "fill"
  {
    match p
    case Stroke => "stroke"
    case Fill => "fill"
  }

  lemma StyleTextRoundTrip(p: PaintStyle)
    ensures StyleFromText(StyleText(p)) == p
  {
  }

  /** On the two canonical texts the mapping is the inverse of `StyleText`. */
  lemma StyleFromCanonicalText(style: string)
    requires style == "stroke" || style == "fill"
    ensures StyleText(StyleFromText(style)) == style
  {
  }

  // ---------------------------------------------------------------------
  // Attribute record -> shape
  // ---------------------------------------------------------------------

  /**
   * The shape a `set_shape_by_serde` call builds from an attribute record,
   * or `None` when the colour text does not resolve to an RGBA colour (the
   * call then installs nothing).
   */
  function ShapeFromAttr(attr: WasmShapesAttr, parse: ColorParser): (r: Option<Shapes>)
    ensures r.Some? <==> ResolveColor(parse(ColorText(attr))).Some?
    ensures r.Some? ==> SameTag(attr, r.value)
    ensures r.Some? ==> ToRgba(ColorOf(r.value)) == parse(ColorText(attr)).color.rgba
    ensures r.Some? && attr.L? ==> StyleOf(r.value) == None
    ensures r.Some? && attr.R? ==> StyleOf(r.value) == Some(StyleFromText(attr.rectAttr.style))
    ensures r.Some? && attr.C? ==> StyleOf(r.value) == Some(StyleFromText(attr.circleAttr.style))
    ensures r.Some? && attr.RR? ==> StyleOf(r.value) == Some(StyleFromText(attr.roundRectAttr.style))
    ensures r.Some? && attr.P? ==> StyleOf(r.value) == Some(StyleFromText(attr.pointsAttr.style))
  {
    var resolved := ResolveColor(parse(ColorText(attr)));
    if resolved.None? then None
    else
      var color := resolved.value;
      match attr
      case R(a) => Some(Shapes.R(Rect(a.x, a.y, a.width, a.height, color, StyleFromText(a.style))))
      case C(a) => Some(Shapes.C(Circle(a.cx, a.cy, a.r, color, StyleFromText(a.style))))
      case RR(a) => Some(Shapes.RR(RoundRect(a.x, a.y, a.r, a.width, a.height, color, StyleFromText(a.style))))
      case L(a) => Some(Shapes.L(Line(a.p1, a.p2, a.strokeWidth, color)))
      case P(a) => Some(Shapes.P(Points(a.points, a.strokeWidth, color, StyleFromText(a.style))))
  }

  /**
   * The attribute record that describes shape `s` with colour text
   * `colorText` and the canonical text of its style.
   */
  function AttrOf(s: Shapes, colorText: string): (attr: WasmShapesAttr)
    ensures ColorText(attr) == colorText && SameTag(attr, s)
  {
    match s
    case R(x) => WasmShapesAttr.R(WasmRectAttr(x.width, x.height, x.x, x.y, colorText, StyleText(x.style)))
    case C(x) => WasmShapesAttr.C(WasmCircleAttr(x.cx, x.cy, x.r, colorText, StyleText(x.style)))
    case RR(x) => WasmShapesAttr.RR(WasmRoundRectAttr(x.width, x.height, x.r, x.x, x.y, colorText, StyleText(x.style)))
    case L(x) => WasmShapesAttr.L(WasmLineAttr(x.p1, x.p2, colorText, x.strokeWidth))
    case P(x) => WasmShapesAttr.P(WasmPointsAttr(x.points, colorText, x.strokeWidth, StyleText(x.style)))
  }

  /** The record with its style text, if it has one, replaced by the text of the style it maps to. */
  function CanonicalAttr(attr: WasmShapesAttr): WasmShapesAttr
  {
    match attr
    case R(a) => WasmShapesAttr.R(a.(style := StyleText(StyleFromText(a.style))))
    case C(a) => WasmShapesAttr.C(a.(style := StyleText(StyleFromText(a.style))))
    case RR(a) => WasmShapesAttr.RR(a.(style := StyleText(StyleFromText(a.style))))
    case L(a) => attr
    case P(a) => WasmShapesAttr.P(a.(style := StyleText(StyleFromText(a.style))))
  }

  /** A record whose style text is already "stroke" or "fill" is its own canonical form. */
  lemma CanonicalAttrOfCanonical(attr: WasmShapesAttr)
    requires !attr.R? || attr.rectAttr.style in ["stroke", "fill"]
    requires !attr.C? || attr.circleAttr.style in ["stroke", "fill"]
    requires !attr.RR? || attr.roundRectAttr.style in ["stroke", "fill"]
    requires !attr.P? || attr.pointsAttr.style in ["stroke", "fill"]
    ensures CanonicalAttr(attr) == attr
  {
  }

  /**
   * Every shape can be sent: describing it by a colour text that parses to
   * its own colour builds exactly that shape back, geometry and style included.
   */
  lemma ShapeFromAttrOf(s: Shapes, colorText: string, parse: ColorParser)
    requires parse(colorText) == Ok(RGBA(ToRgba(ColorOf(s))))
    ensures ShapeFromAttr(AttrOf(s, colorText), parse) == Some(s)
  {
  }

  /**
   * Nothing of a record but the spelling of its style text is lost: the shape
   * it builds describes the record again, with the style text canonical, so
   * every geometry field was copied verbatim into the shape.
   */
  lemma AttrOfShapeFromAttr(attr: WasmShapesAttr, parse: ColorParser)
    requires ShapeFromAttr(attr, parse).Some?
    ensures AttrOf(ShapeFromAttr(attr, parse).value, ColorText(attr)) == CanonicalAttr(attr)
  {
  }

  // ---------------------------------------------------------------------
  // Scene nodes and shape installation
  // ---------------------------------------------------------------------

  /** A node of the renderer's scene: an id, its shape and its children. */
  datatype SceneNode = SceneNode(id: nat, shape: Shapes, children: seq<SceneNode>)

  /** The number of nodes in a forest. */
  function ForestSize(ns: seq<SceneNode>): nat
  {
    if ns == [] then 0 else 1 + ForestSize(ns[0].children) + ForestSize(ns[1..])
  }

  /** The ids of a forest, each node before its subtree, siblings in order. */
  function IdOrder(ns: seq<SceneNode>): seq<nat>
  {
    if ns == [] then [] else [ns[0].id] + IdOrder(ns[0].children) + IdOrder(ns[1..])
  }

  /** `n` with every node of id `id`, `n` itself included, holding `shape`. */
  function Install(n: SceneNode, id: nat, shape: Shapes): SceneNode
  {
    SceneNode(n.id, if n.id == id then shape else n.shape, InstallForest(n.children, id, shape))
  }

  function InstallForest(ns: seq<SceneNode>, id: nat, shape: Shapes): seq<SceneNode>
  {
    if ns == [] then [] else [Install(ns[0], id, shape)] + InstallForest(ns[1..], id, shape)
  }

  // ---------------------------------------------------------------------
  // Paint order
  // ---------------------------------------------------------------------

  /**
   * The shapes the rasterization walk paints for a forest: each node's shape
   * before the shapes of its subtree, siblings in list order.
   */
  function PaintOrder(ns: seq<SceneNode>): seq<Shapes>
  {
    if ns == [] then [] else [ns[0].shape] + PaintOrder(ns[0].children) + PaintOrder(ns[1..])
  }

  /** Painting two sibling lists one after the other paints their concatenation. */
  lemma {:induction false} PaintOrderConcat(a: seq<SceneNode>, b: seq<SceneNode>)
    ensures PaintOrder(a + b) == PaintOrder(a) + PaintOrder(b)
  {
    if a == [] {
      assert a + b == b;
    } else {
      assert (a + b)[0] == a[0];
      assert (a + b)[1..] == a[1..] + b;
      PaintOrderConcat(a[1..], b);
    }
  }

  /** Appending one node to a sibling list paints it, then its subtree, last. */
  lemma PaintOrderSnoc(a: seq<SceneNode>, n: SceneNode)
    ensures PaintOrder(a + [n]) == PaintOrder(a) + [n.shape] + PaintOrder(n.children)
  {
    PaintOrderConcat(a, [n]);
    assert [n][1..] == [];
  }

  /** One shape is painted per node of the forest. */
  lemma {:induction false} PaintOrderLength(ns: seq<SceneNode>)
    ensures |PaintOrder(ns)| == ForestSize(ns) == |IdOrder(ns)|
  {
    if ns != [] {
      PaintOrderLength(ns[0].children);
      PaintOrderLength(ns[1..]);
    }
  }

  /**
   * The root's own shape is not painted: the walk over a root paints exactly
   * one shape fewer than the tree has nodes, and the first shape painted, if
   * any, is the first child's.
   */
  lemma RootNotPainted(root: SceneNode)
    ensures |PaintOrder(root.children)| == ForestSize([root]) - 1
    ensures root.children != [] ==> PaintOrder(root.children)[0] == root.children[0].shape
  {
    PaintOrderLength(root.children);
    assert [root][1..] == [];
  }

  lemma {:induction false} ForestSizeConcat(a: seq<SceneNode>, b: seq<SceneNode>)
    ensures ForestSize(a + b) == ForestSize(a) + ForestSize(b)
  {
    if a == [] {
      assert a + b == b;
    } else {
      assert (a + b)[0] == a[0];
      assert (a + b)[1..] == a[1..] + b;
      ForestSizeConcat(a[1..], b);
    }
  }

  /**
   * A painter driven by an explicit work stack: pop a node, paint it, push
   * its children in front of the rest.
   */
  function StackPaintOrder(stack: seq<SceneNode>): seq<Shapes>
    decreases ForestSize(stack)
  {
    if stack == [] then []
    else
      ForestSizeConcat(stack[0].children, stack[1..]);
      [stack[0].shape] + StackPaintOrder(stack[0].children + stack[1..])
  }

  /** The work-stack painter paints in the same order as the recursive walk. */
  lemma {:induction false} StackPaintOrderIsPaintOrder(ns: seq<SceneNode>)
    ensures StackPaintOrder(ns) == PaintOrder(ns)
    decreases ForestSize(ns)
  {
    if ns != [] {
      ForestSizeConcat(ns[0].children, ns[1..]);
      StackPaintOrderIsPaintOrder(ns[0].children + ns[1..]);
      PaintOrderConcat(ns[0].children, ns[1..]);
    }
  }

  /**
   * `after` is `before` with the entries at the positions whose id is `id`
   * replaced by `shape`.
   */
  ghost predicate ReplacedAt(after: seq<Shapes>, before: seq<Shapes>, ids: seq<nat>, id: nat, shape: Shapes)
  {
    |after| == |before| == |ids|
    && forall k :: 0 <= k < |after| ==> after[k] == (if ids[k] == id then shape else before[k])
  }

  lemma ReplacedAtConcat(a1: seq<Shapes>, b1: seq<Shapes>, i1: seq<nat>,
                         a2: seq<Shapes>, b2: seq<Shapes>, i2: seq<nat>, id: nat, shape: Shapes)
    requires ReplacedAt(a1, b1, i1, id, shape) && ReplacedAt(a2, b2, i2, id, shape)
    ensures ReplacedAt(a1 + a2, b1 + b2, i1 + i2, id, shape)
  {
    forall k | 0 <= k < |a1 + a2|
      ensures (a1 + a2)[k] == (if (i1 + i2)[k] == id then shape else (b1 + b2)[k])
    {
      if k >= |a1| {
        assert (a1 + a2)[k] == a2[k - |a1|];
      }
    }
  }

  /**
   * Installing a shape keeps the ids and the structure of a forest and
   * changes, in the painted trace, exactly the shapes of the nodes with that id.
   */
  lemma {:induction false} InstallForestPaintOrder(ns: seq<SceneNode>, id: nat, shape: Shapes)
    ensures IdOrder(InstallForest(ns, id, shape)) == IdOrder(ns)
    ensures ReplacedAt(PaintOrder(InstallForest(ns, id, shape)), PaintOrder(ns), IdOrder(ns), id, shape)
  {
    if ns != [] {
      var n := ns[0];
      var m := Install(n, id, shape);
      var rest := InstallForest(ns[1..], id, shape);
      assert InstallForest(ns, id, shape) == [m] + rest;
      assert ([m] + rest)[0] == m && ([m] + rest)[1..] == rest;
      InstallForestPaintOrder(n.children, id, shape);
      InstallForestPaintOrder(ns[1..], id, shape);
      ReplacedAtConcat([m.shape], [n.shape], [n.id],
                       PaintOrder(m.children), PaintOrder(n.children), IdOrder(n.children), id, shape);
      ReplacedAtConcat([m.shape] + PaintOrder(m.children), [n.shape] + PaintOrder(n.children), [n.id] + IdOrder(n.children),
                       PaintOrder(rest), PaintOrder(ns[1..]), IdOrder(ns[1..]), id, shape);
    }
  }

  /** Installing a shape under an id no node carries changes nothing. */
  lemma {:induction false} InstallForestAbsent(ns: seq<SceneNode>, id: nat, shape: Shapes)
    requires forall k :: 0 <= k < |IdOrder(ns)| ==> IdOrder(ns)[k] != id
    ensures InstallForest(ns, id, shape) == ns
  {
    if ns != [] {
      var ids := IdOrder(ns);
      assert ids == [ns[0].id] + IdOrder(ns[0].children) + IdOrder(ns[1..]);
      assert ids[0] == ns[0].id;
      forall k | 0 <= k < |IdOrder(ns[0].children)| ensures IdOrder(ns[0].children)[k] != id {
        assert IdOrder(ns[0].children)[k] == ids[k + 1];
      }
      forall k | 0 <= k < |IdOrder(ns[1..])| ensures IdOrder(ns[1..])[k] != id {
        assert IdOrder(ns[1..])[k] == ids[k + 1 + |IdOrder(ns[0].children)|];
      }
      InstallForestAbsent(ns[0].children, id, shape);
      InstallForestAbsent(ns[1..], id, shape);
      assert ns == [ns[0]] + ns[1..];
    }
  }

  /**
   * On a whole tree: the root gets the shape exactly when it has the id,
   * the painted trace of its descendants is replaced exactly where they have
   * the id, and an id found nowhere leaves the tree as it was.
   */
  lemma InstallTree(root: SceneNode, id: nat, shape: Shapes)
    ensures Install(root, id, shape).id == root.id
    ensures Install(root, id, shape).shape == if root.id == id then shape else root.shape
    ensures IdOrder(Install(root, id, shape).children) == IdOrder(root.children)
    ensures ReplacedAt(PaintOrder(Install(root, id, shape).children), PaintOrder(root.children),
                       IdOrder(root.children), id, shape)
    ensures root.id != id && (forall k :: 0 <= k < |IdOrder(root.children)| ==> IdOrder(root.children)[k] != id)
            ==> Install(root, id, shape) == root
  {
    InstallForestPaintOrder(root.children, id, shape);
    if root.id != id && (forall k :: 0 <= k < |IdOrder(root.children)| ==> IdOrder(root.children)[k] != id) {
      InstallForestAbsent(root.children, id, shape);
    }
  }

  // ---------------------------------------------------------------------
  // Canvas
  // ---------------------------------------------------------------------

  /** The surface size for a root shape: a rectangle's size, otherwise zero by zero. */
  function CanvasSize(rootShape: Shapes): (size: (u32, u32))
    ensures rootShape.R? ==> size == (rootShape.rect.width, rootShape.rect.height)
    ensures !rootShape.R? ==> size == (0, 0)
  {
    match rootShape
    case R(rect) => (rect.width, rect.height)
    case _ => (0, 0)
  }

  /**
   * Installing a rectangle record with a valid colour on the root makes the
   * canvas the record's width by height; any other record with a valid
   * colour makes it zero by zero.
   */
  lemma CanvasAfterInstall(root: SceneNode, attr: WasmShapesAttr, parse: ColorParser)
    requires ShapeFromAttr(attr, parse).Some?
    ensures attr.R? ==> CanvasSize(Install(root, root.id, ShapeFromAttr(attr, parse).value).shape)
                        == (attr.rectAttr.width, attr.rectAttr.height)
    ensures !attr.R? ==> CanvasSize(Install(root, root.id, ShapeFromAttr(attr, parse).value).shape) == (0, 0)
  {
  }

  /** The raster surface: its size and the shapes painted onto it, in order. */
  class Pixmap {
    const width: u32
    const height: u32
    var painted: seq<Shapes>

    constructor (width: u32, height: u32)
      ensures this.width == width && this.height == height && painted == []
    {
      this.width := width;
      this.height := height;
      painted := [];
    }
  }

  /** `Shapes::draw`: paints one shape onto the surface. */
  method Draw(shape: Shapes, pixmap: Pixmap)
    modifies pixmap
    ensures pixmap.painted == old(pixmap.painted) + [shape]
  {
    pixmap.painted := pixmap.painted + [shape];
  }

  /**
   * Paints every child of `node` and then, recursively, that child's
   * descendants, in child order; `node`'s own shape is not painted.
   */
  method RecursiveRasterizationNodeToPixmap(node: SceneNode, pixmap: Pixmap)
    modifies pixmap
    ensures pixmap.painted == old(pixmap.painted) + PaintOrder(node.children)
    decreases node
  {
    for i := 0 to |node.children|
      invariant pixmap.painted == old(pixmap.painted) + PaintOrder(node.children[..i])
    {
      var item := node.children[i];
      Draw(item.shape, pixmap);
      RecursiveRasterizationNodeToPixmap(item, pixmap);
      PaintOrderSnoc(node.children[..i], item);
      assert node.children[..i + 1] == node.children[..i] + [item];
    }
    assert node.children[..|node.children|] == node.children;
  }

  const DataUrlPrefix: string := "data:image/png;base64,"

  /** The foreign PNG and base64 encoding of a painted surface of the given size. */
  type Encoder = (u32, u32, seq<Shapes>) -> string

  /** The renderer instance: the scene it holds, addressed by node id. */
  class SoftSkiaWasm {
    var root: SceneNode

    constructor (root: SceneNode)
      ensures this.root == root
    {
      this.root := root;
    }

    /**
     * Renders the scene and returns it as a data URL: the surface is sized
     * by the root's shape and carries the descendants' shapes in paint order.
     */
    method ToBase64(encode: Encoder) returns (s: string)
      ensures s == DataUrlPrefix + encode(CanvasSize(root.shape).0, CanvasSize(root.shape).1, PaintOrder(root.children))
      ensures |s| >= |DataUrlPrefix| && s[..|DataUrlPrefix|] == DataUrlPrefix
    {
      var size := CanvasSize(root.shape);
      var pixmap := new Pixmap(size.0, size.1);
      RecursiveRasterizationNodeToPixmap(root, pixmap);
      assert pixmap.painted == PaintOrder(root.children);
      var data := encode(pixmap.width, pixmap.height, pixmap.painted);
      s := DataUrlPrefix + data;
    }

    /**
     * Builds the shape described by the decoded message and installs it on
     * the nodes with id `id`; a colour that does not resolve to RGBA leaves
     * the scene as it was. A message that did not decode is a panic, so the
     * caller must supply a decoded one.
     */
    method SetShapeBySerde(id: nat, message: Option<WasmShape>, parse: ColorParser)
      requires message.Some?
      modifies this
      ensures ShapeFromAttr(message.value.attr, parse).None? ==> root == old(root)
      ensures ShapeFromAttr(message.value.attr, parse).Some? ==>
                root == Install(old(root), id, ShapeFromAttr(message.value.attr, parse).value)
    {
      var shape := ShapeFromAttr(message.value.attr, parse);
      if shape.Some? {
        root := Install(root, id, shape.value);
      }
    }
  }
}
