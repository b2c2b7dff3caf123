/** The state of one card instance (src/components/Card.jsx): its colour, tilt and depth
    settings, the last pointer sample and the hover flag, with the three validated update
    operations of its public API, the two pointer handlers, the style every render derives from
    the state, and the lookup of the card's content by component id. */
module CardComponent {
  import opened Common
  import opened ColorFormat
  import opened CardMotion

  // ---------------------------------------------------------------------------------------------
  // Defaults and their merge with the caller's settings

  const ColorKeys: set<string> := {"primary", "secondary", "text", "shadow"}
  const TiltAxes: set<string> := {"x", "y"}
  const DepthLayers: set<string> := {"image", "text", "card"}

  function DefaultColors(): map<string, string> {
    map["primary" := "#1E1E1E", "secondary" := "#4CAF50", "text" := "#FFFFFF",
        "shadow" := "rgba(0, 0, 0, 0.8)"]
  }

  function DefaultTilt(): map<string, real> {
    map["x" := 5.0, "y" := 5.0]
  }

  function DefaultDepth(): map<string, real> {
    map["image" := 1.2, "text" := 0.5, "card" := 0.4]
  }

  /** The object spread { ...defaults, ...overrides }: every key of either, the caller's value
      where the caller gave one and the default elsewhere. */
  function Overlay<V>(defaults: map<string, V>, overrides: map<string, V>): (m: map<string, V>)
    ensures m.Keys == defaults.Keys + overrides.Keys
    ensures forall k :: k in overrides ==> m[k] == overrides[k]
    ensures forall k :: k in defaults && k !in overrides ==> m[k] == defaults[k]
  {
    defaults + overrides
  }

  // ---------------------------------------------------------------------------------------------
  // Validation of the update operations

  /** Why an update was refused; each reason is one of the diagnostics the card logs. */
  datatype Rejection =
    | UnknownColor(name: string)
    | MalformedColor(value: string)
    | UnknownAxis(axis: string)
    | TiltOutOfRange
    | UnknownDepthElement(element: string)
    | DepthOutOfRange

  datatype Verdict = Accept | Reject(reason: Rejection)

  const MaxTiltDegree: real := 20.0
  const MaxDepth: real := 3.0

  /** A value after Number(...) coercion: None stands for NaN. Accepted when it is a number
      between 0 and hi, both ends included. */
  predicate NumberWithin(v: Option<real>, hi: real) {
    v.Some? && 0.0 <= v.value <= hi
  }

  /** updateColor's checks: the name must be a key of the merged colours, then the value must
      pass isValidColor. */
  function CheckColor(colors: map<string, string>, name: string, value: string): (v: Verdict)
    ensures v.Accept? <==> name in colors && IsValidColor(value)
    ensures v == Reject(UnknownColor(name)) <==> name !in colors
    ensures v == Reject(MalformedColor(value)) <==> name in colors && !IsValidColor(value)
  {
    if name !in colors then Reject(UnknownColor(name))
    else if !IsValidColor(value) then Reject(MalformedColor(value))
    else Accept
  }

  /** updateTilt's checks: the axis must be "x" or "y", then the degree a number in [0, 20]. */
  function CheckTilt(axis: string, degree: Option<real>): (v: Verdict)
    ensures v.Accept? <==> axis in TiltAxes && NumberWithin(degree, MaxTiltDegree)
    ensures v == Reject(UnknownAxis(axis)) <==> axis !in TiltAxes
    ensures v == Reject(TiltOutOfRange) <==> axis in TiltAxes && !NumberWithin(degree, MaxTiltDegree)
  {
    if axis != "x" && axis != "y" then Reject(UnknownAxis(axis))
    else if degree.None? || degree.value < 0.0 || degree.value > 20.0 then Reject(TiltOutOfRange)
    else Accept
  }

  /** updateDepth's checks: the element must be a key of the merged depths, then the value a
      number in [0, 3]. */
  function CheckDepth(depth: map<string, real>, element: string, value: Option<real>): (v: Verdict)
    ensures v.Accept? <==> element in depth && NumberWithin(value, MaxDepth)
    ensures v == Reject(UnknownDepthElement(element)) <==> element !in depth
    ensures v == Reject(DepthOutOfRange) <==> element in depth && !NumberWithin(value, MaxDepth)
  {
    if element !in depth then Reject(UnknownDepthElement(element))
    else if value.None? || value.value < 0.0 || value.value > 3.0 then Reject(DepthOutOfRange)
    else Accept
  }

  // ---------------------------------------------------------------------------------------------
  // The style a render derives from the state

  /** What a render applies: the rotations of the outer and inner layers, the shadow both
      layers share, the translations of the image and text layers, and the three colours. */
  datatype CardStyle = CardStyle(
    outer: Rotation, inner: Rotation, shadow: Shadow, image: Offset, text: Offset,
    background: string, heading: string, body: string)

  /** The style for a sample and the settings: the outer layer turns by the tilt settings,
      the inner layer by the fixed tilt 2, the image and text layers move by their depth, and
      the shadow takes the shadow colour. The card depth is stored but not read here. */
  function ComputeStyle(s: Sample, tilt: map<string, real>, depth: map<string, real>,
                        colors: map<string, string>, hovering: bool): CardStyle
    requires TiltAxes <= tilt.Keys && DepthLayers <= depth.Keys && ColorKeys <= colors.Keys
  {
    CardStyle(
      Rotate(s, tilt["x"], tilt["y"]),
      Rotate(s, InnerTilt, InnerTilt),
      DynamicShadow(s, hovering, colors["shadow"]),
      DepthTransform(s, depth["image"]),
      DepthTransform(s, depth["text"]),
      colors["primary"], colors["secondary"], colors["text"])
  }

  /** Tilt and depth settings within the ranges the update operations enforce. */
  predicate SettingsInRange(tilt: map<string, real>, depth: map<string, real>)
    requires TiltAxes <= tilt.Keys && DepthLayers <= depth.Keys
  {
    && 0.0 <= tilt["x"] <= MaxTiltDegree && 0.0 <= tilt["y"] <= MaxTiltDegree
    && 0.0 <= depth["image"] <= MaxDepth && 0.0 <= depth["text"] <= MaxDepth
    && 0.0 <= depth["card"] <= MaxDepth
  }

  /** At the neutral sample nothing is turned, moved or offset, whatever the settings. */
  lemma NeutralStyle(tilt: map<string, real>, depth: map<string, real>,
                     colors: map<string, string>, hovering: bool)
    requires TiltAxes <= tilt.Keys && DepthLayers <= depth.Keys && ColorKeys <= colors.Keys
    ensures var st := ComputeStyle(Neutral, tilt, depth, colors, hovering);
      && st.outer == Rotation(0.0, 0.0) && st.inner == Rotation(0.0, 0.0)
      && st.image == Offset(0.0, 0.0) && st.text == Offset(0.0, 0.0)
      && st.shadow.offsetX == 0.0 && st.shadow.offsetY == 0.0
  {
  }

  /** With the pointer inside the card and settings in range, the outer layer turns at most
      20 degrees, the inner at most 2, each moving layer shifts at most 6 pixels, and the shadow
      lies at most 20 pixels away. */
  lemma StyleBounded(s: Sample, tilt: map<string, real>, depth: map<string, real>,
                     colors: map<string, string>, hovering: bool)
    requires TiltAxes <= tilt.Keys && DepthLayers <= depth.Keys && ColorKeys <= colors.Keys
    requires InUnitSquare(s) && SettingsInRange(tilt, depth)
    ensures var st := ComputeStyle(s, tilt, depth, colors, hovering);
      && -MaxTiltDegree <= st.outer.rotateX <= MaxTiltDegree
      && -MaxTiltDegree <= st.outer.rotateY <= MaxTiltDegree
      && -InnerTilt <= st.inner.rotateX <= InnerTilt && -InnerTilt <= st.inner.rotateY <= InnerTilt
      && -6.0 <= st.image.dx <= 6.0 && -6.0 <= st.image.dy <= 6.0
      && -6.0 <= st.text.dx <= 6.0 && -6.0 <= st.text.dy <= 6.0
      && -MaxOffset <= st.shadow.offsetX <= MaxOffset && -MaxOffset <= st.shadow.offsetY <= MaxOffset
  {
    RotateBounded(s, tilt["x"], tilt["y"]);
    RotateBounded(s, InnerTilt, InnerTilt);
    DepthTransformBounded(s, depth["image"]);
    DepthTransformBounded(s, depth["text"]);
    DynamicShadowShape(s, hovering, colors["shadow"]);
  }

  /** Every default colour passes isValidColor. */
  lemma DefaultColorsValid()
    ensures forall k :: k in DefaultColors() ==> IsValidColor(DefaultColors()[k])
  {
    var d := DefaultColors();
    forall k | k in d
      ensures IsValidColor(d[k])
    {
      DefaultColorValid(d, k);
    }
  }

  lemma DefaultColorValid(d: map<string, string>, k: string)
    requires d == DefaultColors() && k in d
    ensures IsValidColor(d[k])
  {
    assert k == "primary" || k == "secondary" || k == "text" || k == "shadow";
    if k == "shadow" {
      DefaultShadowAccepted();
    } else {
      DefaultHexColorsValid(d["primary"], d["secondary"], d["text"]);
    }
  }

  lemma DefaultHexColorsValid(primary: string, secondary: string, text: string)
    requires primary == "#1E1E1E" && secondary == "#4CAF50" && text == "#FFFFFF"
    ensures IsValidColor(primary) && IsValidColor(secondary) && IsValidColor(text)
  {
    HexColorShape(primary);
    HexColorShape(secondary);
    HexColorShape(text);
  }

  /** The default tilt and depth settings lie in the ranges the updates enforce. */
  lemma DefaultSettingsInRange()
    ensures SettingsInRange(DefaultTilt(), DefaultDepth())
  {
  }

  // ---------------------------------------------------------------------------------------------
  // The card's content

  datatype CardData = CardData(name: string, title: string, description: string, image: string)

  /** An entry of the content table: the component id (its Module field) and the content. */
  datatype CardRecord = CardRecord(moduleId: string, cardData: CardData)

  /** ComponetData.find(item => item.Module === component): the content of the first entry
      with that id, or None, which the card renders as "Component not found!". */
  function FindCardData(table: seq<CardRecord>, component: string): (r: Option<CardData>)
    ensures r.None? <==> forall i :: 0 <= i < |table| ==> table[i].moduleId != component
    ensures r.Some? ==>
      exists i :: && 0 <= i < |table| && table[i].moduleId == component
                  && table[i].cardData == r.value
                  && (forall j :: 0 <= j < i ==> table[j].moduleId != component)
  {
    match FindFirst(table, (e: CardRecord) => e.moduleId == component)
    case None => None
    case Some(i) => Some(table[i].cardData)
  }

  // ---------------------------------------------------------------------------------------------
  // One card instance

  class Card {
    var colors: map<string, string>
    var tilt: map<string, real>
    var depth: map<string, real>
    var mouseVal: Sample
    var isHovering: bool

    /** Every key the render reads is present. */
    ghost predicate Valid()
      reads this
    {
      ColorKeys <= colors.Keys && TiltAxes <= tilt.Keys && DepthLayers <= depth.Keys
    }

    /** The initial state: the defaults overlaid by the caller's settings, the neutral sample,
        not hovering. The caller's settings are not validated. */
    constructor (initialColors: map<string, string>, initialTilt: map<string, real>,
                 initialDepth: map<string, real>)
      ensures Valid()
      ensures colors == Overlay(DefaultColors(), initialColors)
      ensures tilt == Overlay(DefaultTilt(), initialTilt)
      ensures depth == Overlay(DefaultDepth(), initialDepth)
      ensures mouseVal == Neutral && !isHovering
    {
      colors := Overlay(DefaultColors(), initialColors);
      tilt := Overlay(DefaultTilt(), initialTilt);
      depth := Overlay(DefaultDepth(), initialDepth);
      mouseVal := Neutral;
      isHovering := false;
    }

    /** The style of the current render. */
    function Style(): CardStyle
      reads this
      requires Valid()
    {
      ComputeStyle(mouseVal, tilt, depth, colors, isHovering)
    }

    ghost predicate InRange()
      reads this
      requires Valid()
    {
      SettingsInRange(tilt, depth)
    }

    /** updateColor: on success exactly the named colour takes the new value; on failure
        nothing changes. Only the colours are touched, and their key set never changes. */
    method UpdateColor(name: string, value: string) returns (ok: bool)
      requires Valid()
      modifies this`colors
      ensures Valid() && colors.Keys == old(colors.Keys)
      ensures ok == CheckColor(old(colors), name, value).Accept?
      ensures colors == if ok then old(colors)[name := value] else old(colors)
    {
      ok := CheckColor(colors, name, value).Accept?;
      if ok {
        colors := colors[name := value];
      }
    }

    /** updateTilt: on success exactly that axis takes the coerced degree; on failure nothing
        changes. Settings in range stay in range. */
    method UpdateTilt(axis: string, degree: Option<real>) returns (ok: bool)
      requires Valid()
      modifies this`tilt
      ensures Valid() && tilt.Keys == old(tilt.Keys)
      ensures ok == CheckTilt(axis, degree).Accept?
      ensures tilt == if ok then old(tilt)[axis := degree.value] else old(tilt)
      ensures old(InRange()) ==> InRange()
    {
      ok := CheckTilt(axis, degree).Accept?;
      if ok {
        tilt := tilt[axis := degree.value];
      }
    }

    /** updateDepth: on success exactly that element takes the coerced value; on failure
        nothing changes. Settings in range stay in range. */
    method UpdateDepth(element: string, value: Option<real>) returns (ok: bool)
      requires Valid()
      modifies this`depth
      ensures Valid() && depth.Keys == old(depth.Keys)
      ensures ok == CheckDepth(old(depth), element, value).Accept?
      ensures depth == if ok then old(depth)[element := value.value] else old(depth)
      ensures old(InRange()) ==> InRange()
    {
      ok := CheckDepth(depth, element, value).Accept?;
      if ok {
        depth := depth[element := value.value];
      }
    }

    /** handleMouseMove: without a target element or with a degenerate rectangle nothing
        changes; otherwise the sample is the normalised cursor position and the card hovers. */
    method MouseMove(clientX: real, clientY: real, target: Option<Rect>)
      modifies this`mouseVal, this`isHovering
      ensures Track(clientX, clientY, target).None? ==>
        mouseVal == old(mouseVal) && isHovering == old(isHovering)
      ensures Track(clientX, clientY, target).Some? ==>
        mouseVal == Track(clientX, clientY, target).value && isHovering
    {
      match Track(clientX, clientY, target)
      case None =>
      case Some(s) =>
        mouseVal := s;
        isHovering := true;
    }

    /** handleMouseLeave: back to the neutral sample, not hovering. */
    method MouseLeave()
      modifies this`mouseVal, this`isHovering
      ensures mouseVal == Neutral && !isHovering
    {
      mouseVal := Neutral;
      isHovering := false;
    }
  }

  /** A card with tilt (8, 3): the pointer at the midpoint of the right edge turns it 8 degrees
      about the vertical axis and not at all about the horizontal one; a tilt of 25 is refused
      and a tilt of 10 takes effect on the next render; leaving the card levels it again. */
  method TiltScenario()
  {
    var card := new Card(map[], map["x" := 8.0, "y" := 3.0], map[]);
    assert card.tilt["x"] == 8.0 && card.tilt["y"] == 3.0;
    var rect := Rect(100.0, 50.0, 200.0, 80.0);
    TrackLandmarks(rect);
    card.MouseMove(rect.left + rect.width, rect.top + rect.height / 2.0, Some(rect));
    assert card.mouseVal == Sample(1.0, 0.0);
    assert card.Style().outer == Rotate(Sample(1.0, 0.0), 8.0, 3.0) == Rotation(0.0, 8.0);

    var ok := card.UpdateTilt("x", Some(25.0));
    assert !ok && card.tilt["x"] == 8.0;
    ok := card.UpdateTilt("x", Some(10.0));
    assert ok && card.Style().outer.rotateY == 10.0;

    card.MouseLeave();
    assert card.Style().outer == Rotation(0.0, 0.0);
  }

  /** Colours are checked by format: a keyword is refused, a hex colour is taken and becomes the
      background. */
  method ColorScenario()
  {
    var card := new Card(map[], map[], map[]);
    HexExamples();
    KeywordRefused();
    var ok := card.UpdateColor("primary", "not-a-color");
    assert !ok;
    ok := card.UpdateColor("primary", "#121212");
    assert ok && card.Style().background == "#121212";
  }
}
