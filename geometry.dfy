/**
 * Layout arithmetic of a node visual (QDataflowNode): the widths of the port
 * rows, the placement of the ports, the stacking of the input header, the body
 * and the output header, and the node's bounding rectangle.
 *
 * The layout constants are integers; the bounding rectangle, which adds half
 * the outline pen's width, has real coordinates. The text label's extent comes
 * from font metrics and is an opaque input.
 */
module Geometry {

  /** QDataflowNode::ioletWidth, ioletHeight and ioletSpacing. */
  const IoletWidth: int := 10
  const IoletHeight: int := 4
  const IoletSpacing: int := 13

  datatype Point = Point(x: int, y: int)

  /** A rectangle with its top-left corner and its size. */
  datatype Rect = Rect(x: int, y: int, width: int, height: int)
  {
    predicate Contains(r: Rect)
    {
      x <= r.x && r.x + r.width <= x + width && y <= r.y && r.y + r.height <= y + height
    }

    /** The rectangle moved by an offset, e.g. from a child's own coordinates to its parent's. */
    function At(p: Point): (r: Rect)
    {
      Rect(x + p.x, y + p.y, width, height)
    }
  }

  /** The size of the label's text as the font metrics report it. */
  datatype Extent = Extent(width: nat, height: nat)

  /** Width of a row of count ports (inletsWidth, outletsWidth); -13 when there is no port. */
  function PortsWidth(count: nat): (r: int)
  {
    count * (IoletWidth + IoletSpacing) - IoletSpacing
  }

  /** Where a new port with index i is placed inside its header band. */
  function PortPosition(i: nat): (r: Point)
  {
    Point(IoletWidth / 2 + i * (IoletWidth + IoletSpacing), IoletHeight / 2)
  }

  /** The rectangle a port occupies in its header band: its ioletWidth x ioletHeight box around its position. */
  function PortBox(i: nat): (r: Rect)
  {
    var p := PortPosition(i);
    Rect(p.x - IoletWidth / 2, p.y - IoletHeight / 2, IoletWidth, IoletHeight)
  }

  /** A port row is exactly as wide as its ports and the gaps between them. */
  lemma {:induction false} PortRowSpan(count: nat)
    ensures count == 0 ==> PortsWidth(count) < 0
    ensures count > 0 ==> PortBox(0).x == 0 && PortBox(count - 1).x + IoletWidth == PortsWidth(count)
    ensures forall i :: 0 <= i < count ==> 0 <= PortBox(i).x && PortBox(i).x + IoletWidth <= PortsWidth(count)
    ensures forall i :: 0 < i < count ==> PortBox(i).x == PortBox(i - 1).x + IoletWidth + IoletSpacing
  {
  }

  /** The geometry adjust() gives the three child rectangles of a node. */
  datatype Layout = Layout(
    inputHeaderPos: Point, inputHeader: Rect,
    bodyPos: Point, body: Rect,
    outputHeaderPos: Point, outputHeader: Rect)

  /** The common width of the three bands: max(text width, inletsWidth, outletsWidth). */
  function BodyWidth(text: Extent, inlets: nat, outlets: nat): (w: int)
    ensures w >= text.width && w >= PortsWidth(inlets) && w >= PortsWidth(outlets)
    ensures w == text.width || w == PortsWidth(inlets) || w == PortsWidth(outlets)
  {
    var ports := if PortsWidth(inlets) >= PortsWidth(outlets) then PortsWidth(inlets) else PortsWidth(outlets);
    if text.width >= ports then text.width else ports
  }

  /** QDataflowNode::adjust: the layout computed from the text extent and the port counts. */
  function LayoutOf(text: Extent, inlets: nat, outlets: nat): (r: Layout)
  {
    var w := BodyWidth(text, inlets, outlets);
    Layout(
      Point(0, 0), Rect(0, 0, w, IoletHeight),
      Point(0, IoletHeight), Rect(0, 0, w, text.height),
      Point(0, IoletHeight + text.height), Rect(0, 0, w, IoletHeight))
  }

  /** The three bands are stacked without gap or overlap and share one width no narrower than their contents. */
  lemma BandsStack(text: Extent, inlets: nat, outlets: nat)
    ensures var l := LayoutOf(text, inlets, outlets);
      && l.inputHeader.At(l.inputHeaderPos).y == 0
      && l.inputHeader.At(l.inputHeaderPos).y + l.inputHeader.height == l.body.At(l.bodyPos).y
      && l.body.At(l.bodyPos).y + l.body.height == l.outputHeader.At(l.outputHeaderPos).y
      && l.body.height == text.height
      && l.inputHeader.height == IoletHeight && l.outputHeader.height == IoletHeight
      && l.inputHeader.width == l.body.width == l.outputHeader.width
      && l.body.width >= text.width
      && l.inputHeader.At(l.inputHeaderPos).x == l.body.At(l.bodyPos).x == l.outputHeader.At(l.outputHeaderPos).x == 0
  {
  }

  /** Every port of either row fits inside its header band. */
  lemma PortsFitHeaders(text: Extent, inlets: nat, outlets: nat, i: nat)
    ensures var l := LayoutOf(text, inlets, outlets);
      && (i < inlets ==> l.inputHeader.Contains(PortBox(i)))
      && (i < outlets ==> l.outputHeader.Contains(PortBox(i)))
  {
    PortRowSpan(inlets);
    PortRowSpan(outlets);
  }

  /** A rectangle with real coordinates (QRectF), for geometry that includes a pen's half width. */
  datatype RectF = RectF(x: real, y: real, width: real, height: real)
  {
    predicate Covers(r: Rect)
    {
      x <= r.x as real && (r.x + r.width) as real <= x + width && y <= r.y as real && (r.y + r.height) as real <= y + height
    }
  }

  /** The width of objectPen, the outline pen adjust() gives the three bands. */
  const ObjectPenWidth: real := 1.0

  /** QGraphicsRectItem::boundingRect: the item's rectangle grown by half its pen width on every side. */
  function OutlinedBounds(box: Rect, penWidth: real): (r: RectF)
  {
    var half := penWidth / 2.0;
    RectF(box.x as real - half, box.y as real - half, box.width as real + penWidth, box.height as real + penWidth)
  }

  /**
   * QDataflowNode::boundingRect: the body box's bounding rectangle (outlined
   * with objectPen) made 2 * ioletHeight taller, then grown by ioletHeight on
   * every side.
   */
  function BoundingRect(box: Rect): (r: RectF)
  {
    var outlined := OutlinedBounds(box, ObjectPenWidth);
    var tall := outlined.(height := outlined.height + 2.0 * IoletHeight as real);
    var adj := IoletHeight as real;
    RectF(tall.x - adj, tall.y - adj, tall.width + 2.0 * adj, tall.height + 2.0 * adj)
  }

  /**
   * The bounding rectangle of a node is its three stacked bands grown by
   * ioletHeight plus half the pen width on every side, and covers each band.
   */
  lemma BoundingRectCoversBands(text: Extent, inlets: nat, outlets: nat)
    ensures var l := LayoutOf(text, inlets, outlets);
      var b := BoundingRect(l.body);
      var bands := Rect(0, 0, l.body.width, l.outputHeader.At(l.outputHeaderPos).y + l.outputHeader.height);
      var margin := IoletHeight as real + ObjectPenWidth / 2.0;
      && b == RectF(bands.x as real - margin, bands.y as real - margin, bands.width as real + 2.0 * margin, bands.height as real + 2.0 * margin)
      && b.Covers(l.inputHeader.At(l.inputHeaderPos))
      && b.Covers(l.body.At(l.bodyPos))
      && b.Covers(l.outputHeader.At(l.outputHeaderPos))
  {
  }
}
