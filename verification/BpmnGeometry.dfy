/**
 Sizes, boxes and truncation (scripts/bpmn_add_di.py): coordinates are kept as
 reals and leave the script through `int()`, which truncates toward zero.
 */
module BpmnGeometry {
  import opened Xml

  const X_SPACING := 160.0
  const Y_SPACING := 100.0
  const BASE_X := 180.0

  predicate IsEventKind(kind: Tag) {
    match kind
    case TagStartEvent | TagEndEvent | TagIntermediateCatchEvent | TagIntermediateThrowEvent | TagBoundaryEvent => true
    case _ => false
  }

  predicate IsGatewayKind(kind: Tag) {
    match kind
    case TagExclusiveGateway | TagParallelGateway | TagInclusiveGateway | TagEventBasedGateway | TagComplexGateway => true
    case _ => false
  }

  /** Tasks, and whatever is neither event nor gateway, are 100 by 80. */
  function Width(kind: Tag): nat {
    if IsEventKind(kind) then 36 else if IsGatewayKind(kind) then 50 else 100
  }

  function Height(kind: Tag): nat {
    if IsEventKind(kind) then 36 else if IsGatewayKind(kind) then 50 else 80
  }

  /** A flow node with its centre. */
  datatype Shape = Shape(kind: Tag, cx: real, cy: real)
  {
    function HalfWidth(): real { Width(kind) as real / 2.0 }
    function HalfHeight(): real { Height(kind) as real / 2.0 }
  }

  function Trunc(r: real): int {
    if r >= 0.0 then r.Floor else -((-r).Floor)
  }

  datatype Box = Box(x: int, y: int, w: nat, h: nat)

  predicate Apart(a: Box, b: Box) {
    a.x + a.w <= b.x || b.x + b.w <= a.x || a.y + a.h <= b.y || b.y + b.h <= a.y
  }

  /** The bounds a flow node is emitted with. */
  function BoxOf(s: Shape): Box {
    Box(Trunc(s.cx - s.HalfWidth()), Trunc(s.cy - s.HalfHeight()), Width(s.kind), Height(s.kind))
  }

  /** Events are 36 px across, gateways 50, and every other node 100 by 80. */
  lemma Sizes(kind: Tag)
    ensures if kind in {TagStartEvent, TagEndEvent, TagBoundaryEvent, TagIntermediateCatchEvent, TagIntermediateThrowEvent}
            then Width(kind) == Height(kind) == 36
            else if kind in {TagExclusiveGateway, TagInclusiveGateway, TagParallelGateway, TagEventBasedGateway, TagComplexGateway}
            then Width(kind) == Height(kind) == 50
            else Width(kind) == 100 && Height(kind) == 80
  {
  }

  /** A box has its node's centre in its middle, to the pixel that truncation takes. */
  lemma BoxAround(s: Shape)
    ensures s.cx - 1.0 < BoxOf(s).x as real + BoxOf(s).w as real / 2.0 < s.cx + 1.0
    ensures s.cy - 1.0 < BoxOf(s).y as real + BoxOf(s).h as real / 2.0 < s.cy + 1.0
  {
    hide Width, Height;
  }

  lemma TruncGap(a: real, b: real, d: nat)
    requires a + d as real + 1.0 <= b
    ensures Trunc(a) + d <= Trunc(b)
  {
  }

  lemma TruncNear(a: real, b: real, d: nat)
    requires a <= b < a + d as real
    ensures Trunc(a) <= Trunc(b) <= Trunc(a) + d
  {
  }

  lemma TruncWhole(n: int)
    ensures Trunc(n as real) == n
  {
    if n < 0 {
      assert -(n as real) == (-n) as real;
    }
  }

  /** One pixel more than touching is enough to survive truncation. */
  lemma FarApart(p: Shape, q: Shape)
    requires || p.cx + p.HalfWidth() + q.HalfWidth() + 1.0 <= q.cx
             || q.cx + p.HalfWidth() + q.HalfWidth() + 1.0 <= p.cx
             || p.cy + p.HalfHeight() + q.HalfHeight() + 1.0 <= q.cy
             || q.cy + p.HalfHeight() + q.HalfHeight() + 1.0 <= p.cy
    ensures Apart(BoxOf(p), BoxOf(q))
  {
    if p.cx + p.HalfWidth() + q.HalfWidth() + 1.0 <= q.cx {
      TruncGap(p.cx - p.HalfWidth(), q.cx - q.HalfWidth(), Width(p.kind));
    } else if q.cx + p.HalfWidth() + q.HalfWidth() + 1.0 <= p.cx {
      TruncGap(q.cx - q.HalfWidth(), p.cx - p.HalfWidth(), Width(q.kind));
    } else if p.cy + p.HalfHeight() + q.HalfHeight() + 1.0 <= q.cy {
      TruncGap(p.cy - p.HalfHeight(), q.cy - q.HalfHeight(), Height(p.kind));
    } else {
      TruncGap(q.cy - q.HalfHeight(), p.cy - p.HalfHeight(), Height(q.kind));
    }
  }

  /** The `i`-th of `n` points that divide a width evenly. */
  function ShareOf(w: nat, n: nat, i: nat): real {
    w as real / (n + 1) as real * (i + 1) as real
  }

  /** Equal shares of a width lie strictly inside it. */
  lemma ShareInside(w: nat, n: nat, i: nat)
    requires w > 0 && i < n
    ensures 0.0 < ShareOf(w, n, i) < w as real
  {
    var s, k, m := w as real / (n + 1) as real, (i + 1) as real, (n + 1) as real;
    assert s * m == w as real;
    assert s > 0.0;
    assert s * k > 0.0;
    assert s * m - s * k == s * (m - k);
    assert s * (m - k) > 0.0;
  }

  /** Two or more shares of at most 100 are no more than 34 apart. */
  lemma ShareStep(w: nat, n: nat, i: nat)
    requires 0 < w <= 100 && n >= 2
    ensures 0.0 < ShareOf(w, n, i + 1) - ShareOf(w, n, i) < 34.0
  {
    var s, m := w as real / (n + 1) as real, (n + 1) as real;
    assert s * m == w as real;
    assert s > 0.0;
    assert s * (m - 3.0) >= 0.0;
    assert s * m >= s * 3.0;
    assert s * (i + 2) as real == s * (i + 1) as real + s;
  }
}
