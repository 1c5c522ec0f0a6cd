/**
 * The Text component of main/component/Text.js: font and box settings whose
 * setters fall back to defaults on falsy arguments, mark the component as
 * not loaded and ask for a reload; onLoad clears the w by h rectangle of
 * the buffer and paints an optional speech bubble and the laid-out glyphs
 * into it. A falsy string
 * argument is "", a falsy number 0.
 */
module Texts {
  import opened Wrappers
  import opened TextLayout

  const DEFAULT_RADIUS: real := -1.0
  const DEFAULT_BUBBLE_COLOR: string := "#FFF"
  const DEFAULT_BUBBLE_STROKE_COLOR: string := "#000"

  /**
   * One operation on the buffer's 2D context: a clearRect, the rounded bubble
   * rectangle, or one glyph.
   */
  datatype Paint =
    | Clear(x: real, y: real, w: real, h: real)
    | Bubble(x: real, y: real, w: real, h: real, radius: real, fill: string, stroke: string)
    | Stamp(at: Placement)

  /** A clearRect that erases the whole buffer of `bufferWidth` by `bufferHeight`. */
  predicate Covers(op: Paint, bufferWidth: real, bufferHeight: real)
  {
    op.Clear? && op.x <= 0.0 && op.y <= 0.0 && op.x + op.w >= bufferWidth && op.y + op.h >= bufferHeight
  }

  /**
   * What the buffer shows after the operations `log`, in order: everything
   * since the last clear that erased the whole buffer (a smaller clear stays
   * in the list, erasing only its rectangle of what came before it).
   */
  function Image(log: seq<Paint>, bufferWidth: real, bufferHeight: real): (r: seq<Paint>)
    ensures |r| <= |log|
    ensures forall k :: 0 <= k < |r| ==> !Covers(r[k], bufferWidth, bufferHeight)
  {
    if log == [] then []
    else
      var last := log[|log| - 1];
      if Covers(last, bufferWidth, bufferHeight) then []
      else
        Image(log[..|log| - 1], bufferWidth, bufferHeight) + [last]
  }

  /** Appending a non-empty sequence is appending its front, then its last element. */
  lemma Snoc<T>(a: seq<T>, b: seq<T>)
    requires b != []
    ensures (a + b)[..|a + b| - 1] == a + b[..|b| - 1] && (a + b)[|a + b| - 1] == b[|b| - 1]
    ensures a + b[..|b| - 1] + [b[|b| - 1]] == a + b
  {
    assert b[..|b| - 1] + [b[|b| - 1]] == b;
  }

  lemma ImageStep(log: seq<Paint>, bufferWidth: real, bufferHeight: real)
    requires log != [] && !log[|log| - 1].Clear?
    ensures Image(log, bufferWidth, bufferHeight) == Image(log[..|log| - 1], bufferWidth, bufferHeight) + [log[|log| - 1]]
  {
  }

  /** Operations that clear nothing are added to the image as they are. */
  lemma {:induction false} ImageAppend(log: seq<Paint>, ops: seq<Paint>, bufferWidth: real, bufferHeight: real)
    requires forall k :: 0 <= k < |ops| ==> !ops[k].Clear?
    ensures Image(log + ops, bufferWidth, bufferHeight) == Image(log, bufferWidth, bufferHeight) + ops
    decreases |ops|
  {
    if ops == [] {
      assert log + ops == log;
    } else {
      var init, last := ops[..|ops| - 1], ops[|ops| - 1];
      var whole := log + ops;
      ImageAppend(log, init, bufferWidth, bufferHeight);
      Snoc(log, ops);
      ImageStep(whole, bufferWidth, bufferHeight);
      Snoc(Image(log, bufferWidth, bufferHeight), ops);
    }
  }

  function Stamps(trace: seq<Placement>): (r: seq<Paint>)
    ensures |r| == |trace| && forall k :: 0 <= k < |r| ==> r[k] == Stamp(trace[k])
  {
    seq(|trace|, k requires 0 <= k < |trace| => Stamp(trace[k]))
  }

  /**
   * The paint renderIntoBuffer issues after clearing: nothing for the empty
   * text; otherwise the bubble when the radius is positive, then the glyph
   * walk starting at (radius, radius).
   */
  function TextPaint(text: string, w: real, h: real, radius: real, fill: string, stroke: string,
                     fontMap: char -> Glyph): (r: seq<Paint>)
    ensures forall k :: 0 <= k < |r| ==> !r[k].Clear?
  {
    if |text| == 0 then []
    else
      (if radius > 0.0 then [Bubble(2.0, 2.0, w - radius * 2.0 - 2.0, h - radius * 2.0 - 2.0, radius, fill, stroke)] else [])
      + Stamps(Layout(text, radius, w, fontMap))
  }

  /**
   * The bubble is painted, first, exactly when the text is not empty and the
   * radius is positive; the glyphs spell the text plus one trailing space
   * and the first one sits at (radius, radius).
   */
  lemma TextPaintShape(text: string, w: real, h: real, radius: real, fill: string, stroke: string,
                       fontMap: char -> Glyph)
    ensures var ops := TextPaint(text, w, h, radius, fill, stroke, fontMap);
      (exists k :: 0 <= k < |ops| && ops[k].Bubble?) <==> (text != "" && radius > 0.0)
    ensures var ops := TextPaint(text, w, h, radius, fill, stroke, fontMap);
      forall k :: 0 <= k < |ops| && ops[k].Bubble? ==> k == 0
    ensures var ops := TextPaint(text, w, h, radius, fill, stroke, fontMap);
      |ops| == if text == "" then 0 else |text| + 1 + (if radius > 0.0 then 1 else 0)
    ensures var ops := TextPaint(text, w, h, radius, fill, stroke, fontMap);
      var glyphs := Layout(text, radius, w, fontMap);
      ops == [] || ops[|ops| - |glyphs|..] == Stamps(glyphs)
    ensures var glyphs := Layout(text, radius, w, fontMap);
      Chars(glyphs) == (if text == "" then "" else text + " ")
      && (glyphs != [] ==> glyphs[0].x == radius && glyphs[0].y == radius)
  {
    LayoutChars(text, radius, w, fontMap);
    LayoutFlows(text, radius, w, fontMap);
    var ops := TextPaint(text, w, h, radius, fill, stroke, fontMap);
    var glyphs := Layout(text, radius, w, fontMap);
    if text != "" && radius > 0.0 {
      assert ops[0].Bubble?;
    }
    if text != "" {
      assert ops[|ops| - |glyphs|..] == Stamps(glyphs);
    }
  }

  class Text {
    var text: string
    var fontSize: real
    var fontFamily: string
    var color: string
    var w: real
    var h: real
    var radius: real
    var bubbleColor: string
    var bubbleStrokeColor: string
    var isRenderable: bool
    var isLoaded: bool
    /** buffer.width and buffer.height of the canvas. */
    var bufferWidth: real
    var bufferHeight: real
    /** Every operation on the buffer's context so far, in order (see Image). */
    var drawn: seq<Paint>
    /** The texture made from the buffer; None while it is null. */
    var texture: Option<seq<Paint>>
    /** How many times load() has been asked for. */
    var loadRequests: nat

    /**
     * new Text(text, fontSize, fontFamily, width, height, color): the given
     * values or their defaults, no bubble (radius -1), a buffer of w by h,
     * no texture yet, and one load request.
     */
    constructor(text: string, fontSize: real, fontFamily: string, width: real, height: real, color: string)
      ensures this.text == (if text != "" then text else PANGRAM)
      ensures this.fontSize == (if fontSize != 0.0 then fontSize else DEFAULT_FONT_SIZE)
      ensures this.fontFamily == (if fontFamily != "" then fontFamily else DEFAULT_FONT_FAMILY)
      ensures this.color == (if color != "" then color else DEFAULT_COLOR)
      ensures w == (if width != 0.0 then width else DEFAULT_WIDTH)
      ensures h == (if height != 0.0 then height else DEFAULT_HEIGHT)
      ensures radius == -1.0 && bubbleColor == "#FFF" && bubbleStrokeColor == "#000"
      ensures isRenderable && !isLoaded
      ensures bufferWidth == w && bufferHeight == h
      ensures drawn == [] && texture == None && loadRequests == 1
    {
      this.text := if text != "" then text else PANGRAM;
      this.fontSize := if fontSize != 0.0 then fontSize else DEFAULT_FONT_SIZE;
      this.fontFamily := if fontFamily != "" then fontFamily else DEFAULT_FONT_FAMILY;
      this.color := if color != "" then color else DEFAULT_COLOR;
      isRenderable := true;
      isLoaded := false;
      w := if width != 0.0 then width else DEFAULT_WIDTH;
      h := if height != 0.0 then height else DEFAULT_HEIGHT;
      radius := DEFAULT_RADIUS;
      bubbleColor := DEFAULT_BUBBLE_COLOR;
      bubbleStrokeColor := DEFAULT_BUBBLE_STROKE_COLOR;
      bufferWidth := if width != 0.0 then width else DEFAULT_WIDTH;
      bufferHeight := if height != 0.0 then height else DEFAULT_HEIGHT;
      drawn := [];
      texture := None;
      loadRequests := 1;
    }

    /**
     * reset(...): the given values or their defaults (the pangram for the
     * text), then a load request; neither the buffer size nor isLoaded changes.
     */
    method Reset(text: string, fontSize: real, fontFamily: string, width: real, height: real, color: string)
      modifies this`text, this`fontSize, this`fontFamily, this`w, this`h, this`color, this`loadRequests
      ensures this.text == (if text != "" then text else PANGRAM)
      ensures this.fontSize == (if fontSize != 0.0 then fontSize else DEFAULT_FONT_SIZE)
      ensures this.fontFamily == (if fontFamily != "" then fontFamily else DEFAULT_FONT_FAMILY)
      ensures this.color == (if color != "" then color else DEFAULT_COLOR)
      ensures w == (if width != 0.0 then width else DEFAULT_WIDTH)
      ensures h == (if height != 0.0 then height else DEFAULT_HEIGHT)
      ensures loadRequests == old(loadRequests) + 1
    {
      this.text := if text != "" then text else PANGRAM;
      this.fontSize := if fontSize != 0.0 then fontSize else DEFAULT_FONT_SIZE;
      this.fontFamily := if fontFamily != "" then fontFamily else DEFAULT_FONT_FAMILY;
      w := if width != 0.0 then width else DEFAULT_WIDTH;
      h := if height != 0.0 then height else DEFAULT_HEIGHT;
      this.color := if color != "" then color else DEFAULT_COLOR;
      loadRequests := loadRequests + 1;
    }

    /** setSize(size): not loaded, the size or 10, a load request. */
    method SetSize(size: real)
      modifies this`isLoaded, this`fontSize, this`loadRequests
      ensures !isLoaded && fontSize == (if size != 0.0 then size else DEFAULT_FONT_SIZE)
      ensures loadRequests == old(loadRequests) + 1
    {
      isLoaded := false;
      fontSize := if size != 0.0 then size else DEFAULT_FONT_SIZE;
      loadRequests := loadRequests + 1;
    }

    /** setFamily(family): not loaded, the family or 'Verdana', a load request. */
    method SetFamily(family: string)
      modifies this`isLoaded, this`fontFamily, this`loadRequests
      ensures !isLoaded && fontFamily == (if family != "" then family else DEFAULT_FONT_FAMILY)
      ensures loadRequests == old(loadRequests) + 1
    {
      isLoaded := false;
      fontFamily := if family != "" then family else DEFAULT_FONT_FAMILY;
      loadRequests := loadRequests + 1;
    }

    /** setColor(color): not loaded, the color or '#000', a load request. */
    method SetColor(color: string)
      modifies this`isLoaded, this`color, this`loadRequests
      ensures !isLoaded && this.color == (if color != "" then color else DEFAULT_COLOR)
      ensures loadRequests == old(loadRequests) + 1
    {
      isLoaded := false;
      this.color := if color != "" then color else DEFAULT_COLOR;
      loadRequests := loadRequests + 1;
    }

    /** setText(text): not loaded, the text or the empty string (not the pangram), a load request. */
    method SetText(text: string)
      modifies this`isLoaded, this`text, this`loadRequests
      ensures !isLoaded && this.text == text
      ensures loadRequests == old(loadRequests) + 1
    {
      isLoaded := false;
      this.text := if text != "" then text else "";
      loadRequests := loadRequests + 1;
    }

    /**
     * setWidth(width): not loaded, the width or 256 for both w and the
     * buffer, a load request. Setting a canvas's width resets its bitmap,
     * even to the same value, so the buffer is erased as by a whole-buffer
     * clear and shows nothing.
     */
    method SetWidth(width: real)
      modifies this`isLoaded, this`w, this`bufferWidth, this`drawn, this`loadRequests
      ensures !isLoaded && w == (if width != 0.0 then width else DEFAULT_WIDTH)
      ensures bufferWidth == w
      ensures drawn == old(drawn) + [Clear(0.0, 0.0, bufferWidth, bufferHeight)]
      ensures Image(drawn, bufferWidth, bufferHeight) == []
      ensures loadRequests == old(loadRequests) + 1
    {
      isLoaded := false;
      w := if width != 0.0 then width else DEFAULT_WIDTH;
      bufferWidth := w;
      drawn := drawn + [Clear(0.0, 0.0, bufferWidth, bufferHeight)];
      loadRequests := loadRequests + 1;
    }

    /**
     * setHeight(height): not loaded, the height or 64 for both h and the
     * buffer, a load request. Like setWidth, resizing the canvas erases it.
     */
    method SetHeight(height: real)
      modifies this`isLoaded, this`h, this`bufferHeight, this`drawn, this`loadRequests
      ensures !isLoaded && h == (if height != 0.0 then height else DEFAULT_HEIGHT)
      ensures bufferHeight == h
      ensures drawn == old(drawn) + [Clear(0.0, 0.0, bufferWidth, bufferHeight)]
      ensures Image(drawn, bufferWidth, bufferHeight) == []
      ensures loadRequests == old(loadRequests) + 1
    {
      isLoaded := false;
      h := if height != 0.0 then height else DEFAULT_HEIGHT;
      bufferHeight := h;
      drawn := drawn + [Clear(0.0, 0.0, bufferWidth, bufferHeight)];
      loadRequests := loadRequests + 1;
    }

    /** createBubble(radius, fill, stroke): the values or -1, '#FFF', '#000'; no reload, isLoaded kept. */
    method CreateBubble(radius: real, bubbleColor: string, bubbleStrokeColor: string)
      modifies this`radius, this`bubbleColor, this`bubbleStrokeColor
      ensures this.radius == (if radius != 0.0 then radius else DEFAULT_RADIUS)
      ensures this.bubbleColor == (if bubbleColor != "" then bubbleColor else DEFAULT_BUBBLE_COLOR)
      ensures this.bubbleStrokeColor == (if bubbleStrokeColor != "" then bubbleStrokeColor else DEFAULT_BUBBLE_STROKE_COLOR)
    {
      this.radius := if radius != 0.0 then radius else DEFAULT_RADIUS;
      this.bubbleColor := if bubbleColor != "" then bubbleColor else DEFAULT_BUBBLE_COLOR;
      this.bubbleStrokeColor := if bubbleStrokeColor != "" then bubbleStrokeColor else DEFAULT_BUBBLE_STROKE_COLOR;
    }

    /**
     * renderIntoBuffer(): clearRect(0, 0, w, h), then the bubble (when the
     * text is not empty and the radius is positive) and the glyph walk; the
     * canvas it returns is the whole buffer. When the w by h rectangle covers
     * the buffer, the buffer then shows exactly the new paint; after a reset
     * to a smaller w or h (reset does not resize the buffer), earlier paint
     * outside that rectangle remains, unless setWidth or setHeight has since
     * resized, and so erased, the buffer.
     */
    method RenderIntoBuffer(fontMap: char -> Glyph) returns (canvas: seq<Paint>)
      modifies this`drawn
      ensures drawn == old(drawn) + [Clear(0.0, 0.0, w, h)] + TextPaint(text, w, h, radius, bubbleColor, bubbleStrokeColor, fontMap)
      ensures canvas == drawn
    {
      var paint: seq<Paint> := [];
      if |text| > 0 {
        if radius > 0.0 {
          paint := [Bubble(2.0, 2.0, w - radius * 2.0 - 2.0, h - radius * 2.0 - 2.0, radius, bubbleColor, bubbleStrokeColor)];
        }
        var glyphs := RenderWords(text, radius, w, fontMap);
        paint := paint + Stamps(glyphs);
      }
      drawn := drawn + [Clear(0.0, 0.0, w, h)] + paint;
      canvas := drawn;
    }

    /**
     * onLoad(): parse (the glyph sizes of the current font, given here as
     * `fontMap`), clearBuffer (clearRect(0, 0, w, h)), and create the texture
     * from the canvas renderIntoBuffer returns; the component is then loaded.
     */
    method OnLoad(fontMap: char -> Glyph)
      modifies this`drawn, this`texture, this`isLoaded
      ensures drawn == old(drawn) + [Clear(0.0, 0.0, w, h)] + [Clear(0.0, 0.0, w, h)]
        + TextPaint(text, w, h, radius, bubbleColor, bubbleStrokeColor, fontMap)
      ensures texture == Some(drawn)
      ensures isLoaded
    {
      drawn := drawn + [Clear(0.0, 0.0, w, h)];
      var canvas := RenderIntoBuffer(fontMap);
      texture := Some(canvas);
      isLoaded := true;
    }
  }

  /**
   * What a render leaves visible in a buffer of bufferWidth by bufferHeight:
   * exactly the new paint when clearRect(0, 0, w, h) covers the buffer;
   * otherwise what was visible before, then the partial clear, then the new
   * paint, so earlier paint outside the w by h rectangle survives.
   */
  lemma RenderedImage(log: seq<Paint>, text: string, w: real, h: real, radius: real, fill: string, stroke: string,
                      fontMap: char -> Glyph, bufferWidth: real, bufferHeight: real)
    ensures var paint := TextPaint(text, w, h, radius, fill, stroke, fontMap);
      var image := Image(log + [Clear(0.0, 0.0, w, h)] + paint, bufferWidth, bufferHeight);
      if w >= bufferWidth && h >= bufferHeight then image == paint
      else image == Image(log, bufferWidth, bufferHeight) + [Clear(0.0, 0.0, w, h)] + paint
  {
    var paint := TextPaint(text, w, h, radius, fill, stroke, fontMap);
    var cleared := log + [Clear(0.0, 0.0, w, h)];
    ImageAppend(cleared, paint, bufferWidth, bufferHeight);
    assert cleared[..|cleared| - 1] == log;
  }

  /** A render issued right after another clear shows exactly the new paint when w by h covers the buffer. */
  lemma LoadedImage(log: seq<Paint>, text: string, w: real, h: real, radius: real, fill: string, stroke: string,
                    fontMap: char -> Glyph, bufferWidth: real, bufferHeight: real)
    requires w >= bufferWidth && h >= bufferHeight
    ensures Image(log + [Clear(0.0, 0.0, w, h)] + [Clear(0.0, 0.0, w, h)] + TextPaint(text, w, h, radius, fill, stroke, fontMap),
                  bufferWidth, bufferHeight)
      == TextPaint(text, w, h, radius, fill, stroke, fontMap)
  {
    RenderedImage(log + [Clear(0.0, 0.0, w, h)], text, w, h, radius, fill, stroke, fontMap, bufferWidth, bufferHeight);
  }
}
