/**
 * The StaticText component of src/component/StaticText.js: a text bound to
 * a scene whose onLoad walks the glyphs into its buffer from (0, 0). Unlike
 * Text it never clears the buffer, has no bubble, and reset neither reloads
 * nor resizes the buffer.
 */
module StaticTexts {
  import opened Wrappers
  import opened TextLayout

  class StaticText {
    /** None stands for null. */
    var sceneId: Option<string>
    var text: string
    var fontSize: real
    var fontFamily: string
    var w: real
    var h: real
    var bufferWidth: real
    var bufferHeight: real
    var isLoaded: bool
    /** Every placement drawn into the buffer (the texture's image) so far. */
    var drawn: seq<Placement>

    /**
     * new StaticText(sceneId, text, fontSize, fontFamily, width, height): the
     * scene id or null, the given values or their defaults, a buffer of w by
     * h, nothing drawn and not loaded.
     */
    constructor(sceneId: string, text: string, fontSize: real, fontFamily: string, width: real, height: real)
      ensures this.sceneId == (if sceneId != "" then Some(sceneId) else None)
      ensures this.text == (if text != "" then text else PANGRAM)
      ensures this.fontSize == (if fontSize != 0.0 then fontSize else DEFAULT_FONT_SIZE)
      ensures this.fontFamily == (if fontFamily != "" then fontFamily else DEFAULT_FONT_FAMILY)
      ensures w == (if width != 0.0 then width else DEFAULT_WIDTH)
      ensures h == (if height != 0.0 then height else DEFAULT_HEIGHT)
      ensures bufferWidth == w && bufferHeight == h
      ensures !isLoaded && drawn == []
    {
      this.sceneId := if sceneId != "" then Some(sceneId) else None;
      this.fontSize := if fontSize != 0.0 then fontSize else DEFAULT_FONT_SIZE;
      this.fontFamily := if fontFamily != "" then fontFamily else DEFAULT_FONT_FAMILY;
      this.text := if text != "" then text else PANGRAM;
      w := if width != 0.0 then width else DEFAULT_WIDTH;
      h := if height != 0.0 then height else DEFAULT_HEIGHT;
      bufferWidth := if width != 0.0 then width else DEFAULT_WIDTH;
      bufferHeight := if height != 0.0 then height else DEFAULT_HEIGHT;
      isLoaded := false;
      drawn := [];
    }

    /** reset(...): the given values or their defaults; no reload, and the buffer keeps its size. */
    method Reset(text: string, fontSize: real, fontFamily: string, width: real, height: real)
      modifies this`text, this`fontSize, this`fontFamily, this`w, this`h
      ensures this.text == (if text != "" then text else PANGRAM)
      ensures this.fontSize == (if fontSize != 0.0 then fontSize else DEFAULT_FONT_SIZE)
      ensures this.fontFamily == (if fontFamily != "" then fontFamily else DEFAULT_FONT_FAMILY)
      ensures w == (if width != 0.0 then width else DEFAULT_WIDTH)
      ensures h == (if height != 0.0 then height else DEFAULT_HEIGHT)
    {
      this.text := if text != "" then text else PANGRAM;
      this.fontSize := if fontSize != 0.0 then fontSize else DEFAULT_FONT_SIZE;
      this.fontFamily := if fontFamily != "" then fontFamily else DEFAULT_FONT_FAMILY;
      w := if width != 0.0 then width else DEFAULT_WIDTH;
      h := if height != 0.0 then height else DEFAULT_HEIGHT;
    }

    /** renderIntoBuffer(): the glyph walk from (0, 0), drawn over whatever the buffer holds. */
    method RenderIntoBuffer(fontMap: char -> Glyph) returns (image: seq<Placement>)
      modifies this`drawn
      ensures drawn == old(drawn) + Layout(text, 0.0, w, fontMap)
      ensures image == drawn
    {
      var glyphs := RenderWords(text, 0.0, w, fontMap);
      drawn := drawn + glyphs;
      image := drawn;
    }

    /**
     * onLoad(): parse (the glyph sizes of the current font, given here as
     * `fontMap`), render into the buffer, which becomes the texture's image;
     * the component is then loaded.
     */
    method OnLoad(fontMap: char -> Glyph)
      modifies this`drawn, this`isLoaded
      ensures drawn == old(drawn) + Layout(text, 0.0, w, fontMap)
      ensures isLoaded
    {
      var image := RenderIntoBuffer(fontMap);
      isLoaded := true;
    }
  }

  /**
   * What a StaticText draws: nothing for the empty text; otherwise the text
   * and one trailing space, each glyph at its own size, the first at (0, 0),
   * each next one beside the previous or at x = 0 one glyph height lower.
   */
  lemma StaticLayout(text: string, w: real, fontMap: char -> Glyph)
    ensures var t := Layout(text, 0.0, w, fontMap);
      (text == "" <==> t == [])
      && Chars(t) == (if text == "" then "" else text + " ")
      && Sized(t, fontMap) && Flowing(t, 0.0)
      && (t != [] ==> t[0].x == 0.0 && t[0].y == 0.0)
  {
    LayoutChars(text, 0.0, w, fontMap);
    LayoutFlows(text, 0.0, w, fontMap);
  }
}
