/**
 * The word-by-word cursor walk that renderIntoBuffer performs in
 * main/component/Text.js and src/component/StaticText.js: the text is split
 * on spaces; before each word the cursor returns to the left edge and moves
 * down one glyph height when `cX + wordCount * cW >= width`; each glyph of
 * the word, then one space glyph, is drawn at the cursor, which advances by
 * the glyph's width. The font map is a function from characters to glyph
 * sizes, and each `drawImage` appends a placement to the trace.
 */
module TextLayout {

  // The defaults both text components fall back to when an argument is falsy.
  const PANGRAM: string := "The quick brown fox jumps over the lazy dog"
  const DEFAULT_WIDTH: real := 256.0
  const DEFAULT_HEIGHT: real := 64.0
  const DEFAULT_FONT_SIZE: real := 10.0
  const DEFAULT_FONT_FAMILY: string := "Verdana"
  const DEFAULT_COLOR: string := "#000"

  // -----------------------------------------------------------------------
  // String.prototype.split(' ') and its inverse

  /** text.split(' '): the pieces between the spaces, in order; n spaces give n + 1 pieces. */
  function Split(s: string): (r: seq<string>)
    ensures |r| >= 1
    ensures forall k :: 0 <= k < |r| ==> ' ' !in r[k]
  {
    if s == [] then [""]
    else
      var init, c := Split(s[..|s| - 1]), s[|s| - 1];
      if c == ' ' then init + [""]
      else init[..|init| - 1] + [init[|init| - 1] + [c]]
  }

  /** words.join(' '). */
  function Join(ws: seq<string>): string
    requires |ws| >= 1
  {
    if |ws| == 1 then ws[0] else Join(ws[..|ws| - 1]) + " " + ws[|ws| - 1]
  }

  /** Joining the pieces with spaces gives back the text. */
  lemma {:induction false} JoinSplit(s: string)
    ensures Join(Split(s)) == s
  {
    if s != [] {
      var init, c := Split(s[..|s| - 1]), s[|s| - 1];
      JoinSplit(s[..|s| - 1]);
      if c == ' ' {
        assert (init + [""])[..|init|] == init;
      } else {
        var ws := init[..|init| - 1] + [init[|init| - 1] + [c]];
        if |init| > 1 {
          assert ws[..|ws| - 1] == init[..|init| - 1];
        }
      }
      assert s == s[..|s| - 1] + [c];
    }
  }

  // -----------------------------------------------------------------------
  // Glyphs, placements and the pen

  datatype Glyph = Glyph(width: real, height: real)

  /** One drawImage(c, 0, 0, cW, cH, cX, cY, cW, cH): the character and the target rectangle. */
  datatype Placement = Placement(ch: char, x: real, y: real, w: real, h: real)

  /** The cursor (cX, cY), the size of the last glyph drawn (cW, cH), and the placements so far. */
  datatype Pen = Pen(x: real, y: real, w: real, h: real, trace: seq<Placement>)

  /** Draw one glyph at the cursor and advance by its width. */
  function Draw(pen: Pen, ch: char, fontMap: char -> Glyph): Pen
  {
    var g := fontMap(ch);
    Pen(pen.x + g.width, pen.y, g.width, g.height, pen.trace + [Placement(ch, pen.x, pen.y, g.width, g.height)])
  }

  /** The inner loop: draw the characters of `s` one after another. */
  function DrawAll(pen: Pen, s: string, fontMap: char -> Glyph): Pen
  {
    if s == [] then pen else Draw(DrawAll(pen, s[..|s| - 1], fontMap), s[|s| - 1], fontMap)
  }

  /** The wrap test before each word: `cX + wordCount * cW >= width`, with the number of words of the whole text. */
  predicate Overflows(x: real, w: real, wordCount: nat, width: real)
  {
    x + (wordCount as real) * w >= width
  }

  /** Move to the start of the next line when the test holds. */
  function Wrap(pen: Pen, wordCount: nat, origin: real, width: real): Pen
  {
    if Overflows(pen.x, pen.w, wordCount, width) then pen.(x := origin, y := pen.y + pen.h) else pen
  }

  /** One pass of the outer loop: wrap test, the word's glyphs, one space glyph. */
  function DrawWord(pen: Pen, word: string, wordCount: nat, origin: real, width: real, fontMap: char -> Glyph): Pen
  {
    Draw(DrawAll(Wrap(pen, wordCount, origin, width), word, fontMap), ' ', fontMap)
  }

  /** The outer loop over `words`. */
  function DrawWords(pen: Pen, words: seq<string>, wordCount: nat, origin: real, width: real, fontMap: char -> Glyph): Pen
  {
    if words == [] then pen
    else DrawWord(DrawWords(pen, words[..|words| - 1], wordCount, origin, width, fontMap), words[|words| - 1], wordCount, origin, width, fontMap)
  }

  /** The placements renderIntoBuffer draws: none for the empty text, else the walk from (origin, origin). */
  function Layout(text: string, origin: real, width: real, fontMap: char -> Glyph): seq<Placement>
  {
    if |text| == 0 then []
    else
      var words := Split(text);
      DrawWords(Pen(origin, origin, 0.0, 0.0, []), words, |words|, origin, width, fontMap).trace
  }

  // -----------------------------------------------------------------------
  // What the walk draws

  /** The characters of a trace, in drawing order. */
  function Chars(trace: seq<Placement>): string
  {
    if trace == [] then [] else Chars(trace[..|trace| - 1]) + [trace[|trace| - 1].ch]
  }

  lemma {:induction false} CharsConcat(a: seq<Placement>, b: seq<Placement>)
    ensures Chars(a + b) == Chars(a) + Chars(b)
    decreases |b|
  {
    if b != [] {
      assert (a + b)[..|a + b| - 1] == a + b[..|b| - 1];
      CharsConcat(a, b[..|b| - 1]);
    } else {
      assert a + b == a;
    }
  }

  /** Every word followed by one space. */
  function Spaced(ws: seq<string>): string
  {
    if ws == [] then "" else Spaced(ws[..|ws| - 1]) + ws[|ws| - 1] + " "
  }

  lemma {:induction false} SpacedJoin(ws: seq<string>)
    requires |ws| >= 1
    ensures Spaced(ws) == Join(ws) + " "
  {
    if |ws| > 1 {
      SpacedJoin(ws[..|ws| - 1]);
    } else {
      assert ws[..0] == [];
    }
  }

  /** The glyph loop draws exactly the characters of `s`, in order, on top of what was drawn. */
  lemma {:induction false} DrawAllChars(pen: Pen, s: string, fontMap: char -> Glyph)
    ensures var r := DrawAll(pen, s, fontMap);
      |r.trace| == |pen.trace| + |s| && r.trace[..|pen.trace|] == pen.trace && Chars(r.trace) == Chars(pen.trace) + s
  {
    if s != [] {
      DrawAllChars(pen, s[..|s| - 1], fontMap);
      assert s == s[..|s| - 1] + [s[|s| - 1]];
    }
  }

  /** One word: its glyphs, then one space, on top of what was drawn. */
  lemma DrawWordChars(pen: Pen, word: string, wordCount: nat, origin: real, width: real, fontMap: char -> Glyph)
    ensures |DrawWord(pen, word, wordCount, origin, width, fontMap).trace| >= |pen.trace|
    ensures var r := DrawWord(pen, word, wordCount, origin, width, fontMap);
      r.trace[..|pen.trace|] == pen.trace && Chars(r.trace) == Chars(pen.trace) + word + " "
  {
    var wrapped := Wrap(pen, wordCount, origin, width);
    DrawAllChars(wrapped, word, fontMap);
    var glyphs := DrawAll(wrapped, word, fontMap);
    assert Chars(Draw(glyphs, ' ', fontMap).trace) == Chars(glyphs.trace) + " ";
    assert glyphs.trace[..|pen.trace|] == pen.trace;
  }

  lemma {:induction false} DrawWordsChars(pen: Pen, words: seq<string>, wordCount: nat, origin: real, width: real, fontMap: char -> Glyph)
    ensures |DrawWords(pen, words, wordCount, origin, width, fontMap).trace| >= |pen.trace|
    ensures var r := DrawWords(pen, words, wordCount, origin, width, fontMap);
      r.trace[..|pen.trace|] == pen.trace && Chars(r.trace) == Chars(pen.trace) + Spaced(words)
  {
    if words != [] {
      var init, last := words[..|words| - 1], words[|words| - 1];
      var before := DrawWords(pen, init, wordCount, origin, width, fontMap);
      var r := DrawWord(before, last, wordCount, origin, width, fontMap);
      assert DrawWords(pen, words, wordCount, origin, width, fontMap) == r;
      DrawWordsChars(pen, init, wordCount, origin, width, fontMap);
      DrawWordChars(before, last, wordCount, origin, width, fontMap);
      ExtendTrace(pen.trace, before.trace, r.trace, Spaced(init), last);
      assert Spaced(words) == Spaced(init) + last + " ";
    }
  }

  /** Two extensions of a trace, one after the other, extend it by both. */
  lemma ExtendTrace(a: seq<Placement>, b: seq<Placement>, c: seq<Placement>, drawn: string, word: string)
    requires |a| <= |b| <= |c| && b[..|a|] == a && c[..|b|] == b
    requires Chars(b) == Chars(a) + drawn && Chars(c) == Chars(b) + word + " "
    ensures c[..|a|] == a && Chars(c) == Chars(a) + (drawn + word + " ")
  {
    assert c[..|a|] == c[..|b|][..|a|];
    SpacedAssoc(Chars(a), drawn, word);
  }

  lemma SpacedAssoc(x: string, y: string, z: string)
    ensures x + y + z + " " == x + (y + z + " ")
  {
  }

  /**
   * renderIntoBuffer draws the text's characters in order, spaces included,
   * followed by one extra space glyph; the empty text draws nothing.
   */
  lemma LayoutChars(text: string, origin: real, width: real, fontMap: char -> Glyph)
    ensures Chars(Layout(text, origin, width, fontMap)) == if text == "" then "" else text + " "
    ensures |Layout(text, origin, width, fontMap)| == if text == "" then 0 else |text| + 1
  {
    if text != "" {
      var words := Split(text);
      DrawWordsChars(Pen(origin, origin, 0.0, 0.0, []), words, |words|, origin, width, fontMap);
      SpacedJoin(words);
      JoinSplit(text);
      CharsLength(Layout(text, origin, width, fontMap));
    }
  }

  lemma {:induction false} CharsLength(trace: seq<Placement>)
    ensures |Chars(trace)| == |trace|
  {
    if trace != [] {
      CharsLength(trace[..|trace| - 1]);
    }
  }

  // -----------------------------------------------------------------------
  // Where the walk draws

  /** Each glyph is drawn at its own size. */
  predicate Sized(trace: seq<Placement>, fontMap: char -> Glyph)
  {
    forall k :: 0 <= k < |trace| ==> trace[k].w == fontMap(trace[k].ch).width && trace[k].h == fontMap(trace[k].ch).height
  }

  /**
   * Consecutive placements either sit side by side on one line, or the later
   * one starts a new line at the left edge, one glyph height further down.
   */
  predicate Flowing(trace: seq<Placement>, origin: real)
  {
    forall k :: 0 <= k < |trace| - 1 ==>
      (trace[k + 1].x == trace[k].x + trace[k].w && trace[k + 1].y == trace[k].y)
      || (trace[k + 1].x == origin && trace[k + 1].y == trace[k].y + trace[k].h)
  }

  /** The pen sits right after the last placement and remembers its size. */
  predicate Follows(pen: Pen)
  {
    pen.trace != [] ==>
      var last := pen.trace[|pen.trace| - 1];
      pen.x == last.x + last.w && pen.y == last.y && pen.w == last.w && pen.h == last.h
  }

  /** The invariant of the walk: sized, flowing placements, the first at the origin, the pen after the last. */
  predicate Walking(pen: Pen, origin: real, fontMap: char -> Glyph)
  {
    Sized(pen.trace, fontMap) && Flowing(pen.trace, origin) && Follows(pen)
    && (pen.trace == [] ==> pen.x == origin && pen.y == origin && pen.h == 0.0)
    && (pen.trace != [] ==> pen.trace[0].x == origin && pen.trace[0].y == origin)
  }

  /** A pen that has just wrapped, or sits where a walk left it. */
  predicate Poised(pen: Pen, origin: real, fontMap: char -> Glyph)
  {
    Sized(pen.trace, fontMap) && Flowing(pen.trace, origin)
    && (pen.trace == [] ==> pen.x == origin && pen.y == origin && pen.h == 0.0)
    && (pen.trace != [] ==> pen.trace[0].x == origin && pen.trace[0].y == origin)
    && (pen.trace != [] ==>
          var last := pen.trace[|pen.trace| - 1];
          (pen.x == last.x + last.w && pen.y == last.y) || (pen.x == origin && pen.y == last.y + last.h))
  }

  lemma DrawKeepsWalking(pen: Pen, ch: char, origin: real, fontMap: char -> Glyph)
    requires Poised(pen, origin, fontMap)
    ensures Walking(Draw(pen, ch, fontMap), origin, fontMap)
  {
    var r := Draw(pen, ch, fontMap);
    assert r.trace[..|pen.trace|] == pen.trace;
    forall k | 0 <= k < |r.trace| - 1
      ensures (r.trace[k + 1].x == r.trace[k].x + r.trace[k].w && r.trace[k + 1].y == r.trace[k].y)
        || (r.trace[k + 1].x == origin && r.trace[k + 1].y == r.trace[k].y + r.trace[k].h)
    {
      if k < |pen.trace| - 1 {
        assert r.trace[k] == pen.trace[k] && r.trace[k + 1] == pen.trace[k + 1];
      }
    }
  }

  lemma {:induction false} DrawAllKeepsWalking(pen: Pen, s: string, origin: real, fontMap: char -> Glyph)
    requires Poised(pen, origin, fontMap)
    ensures Poised(DrawAll(pen, s, fontMap), origin, fontMap)
    ensures s != [] ==> Walking(DrawAll(pen, s, fontMap), origin, fontMap)
  {
    if s != [] {
      DrawAllKeepsWalking(pen, s[..|s| - 1], origin, fontMap);
      DrawKeepsWalking(DrawAll(pen, s[..|s| - 1], fontMap), s[|s| - 1], origin, fontMap);
    }
  }

  lemma {:induction false} DrawWordsKeepsWalking(pen: Pen, words: seq<string>, wordCount: nat, origin: real, width: real, fontMap: char -> Glyph)
    requires Walking(pen, origin, fontMap)
    ensures Walking(DrawWords(pen, words, wordCount, origin, width, fontMap), origin, fontMap)
  {
    if words != [] {
      var before := DrawWords(pen, words[..|words| - 1], wordCount, origin, width, fontMap);
      DrawWordsKeepsWalking(pen, words[..|words| - 1], wordCount, origin, width, fontMap);
      var wrapped := Wrap(before, wordCount, origin, width);
      assert Poised(wrapped, origin, fontMap);
      DrawAllKeepsWalking(wrapped, words[|words| - 1], origin, fontMap);
      DrawKeepsWalking(DrawAll(wrapped, words[|words| - 1], fontMap), ' ', origin, fontMap);
    }
  }

  /**
   * The placements of renderIntoBuffer: each glyph at its font-map size, the
   * first at (origin, origin), and each next one either just right of the
   * previous one or at the left edge one glyph height lower.
   */
  lemma LayoutFlows(text: string, origin: real, width: real, fontMap: char -> Glyph)
    ensures var t := Layout(text, origin, width, fontMap);
      Sized(t, fontMap) && Flowing(t, origin) && (t != [] ==> t[0].x == origin && t[0].y == origin)
  {
    if text != "" {
      var words := Split(text);
      DrawWordsKeepsWalking(Pen(origin, origin, 0.0, 0.0, []), words, |words|, origin, width, fontMap);
    }
  }

  /**
   * The wrap rule: a word starts a new line exactly when the cursor plus the
   * number of words of the whole text times the last glyph width reaches the
   * width, so a text of n words that fits side by side still wraps once
   * `cX + n * cW` reaches the width.
   */
  lemma WrapRule(pen: Pen, wordCount: nat, origin: real, width: real)
    ensures var r := Wrap(pen, wordCount, origin, width);
      (pen.x + (wordCount as real) * pen.w >= width ==> r.x == origin && r.y == pen.y + pen.h)
      && (pen.x + (wordCount as real) * pen.w < width ==> r == pen)
      && r.trace == pen.trace && r.w == pen.w && r.h == pen.h
  {
  }

  // -----------------------------------------------------------------------
  // The loops

  lemma DrawAllStep(pen: Pen, s: string, j: nat, fontMap: char -> Glyph)
    requires j < |s|
    ensures DrawAll(pen, s[..j + 1], fontMap) == Draw(DrawAll(pen, s[..j], fontMap), s[j], fontMap)
  {
    assert s[..j + 1][..j] == s[..j];
  }

  lemma DrawWordsStep(pen: Pen, words: seq<string>, i: nat, wordCount: nat, origin: real, width: real, fontMap: char -> Glyph)
    requires i < |words|
    ensures DrawWords(pen, words[..i + 1], wordCount, origin, width, fontMap)
      == DrawWord(DrawWords(pen, words[..i], wordCount, origin, width, fontMap), words[i], wordCount, origin, width, fontMap)
  {
    assert words[..i + 1][..i] == words[..i];
  }

  /**
   * renderIntoBuffer's walk, as nested loops over the words and their
   * characters; `origin` is the starting cursor (Text: radius, StaticText: 0).
   */
  method RenderWords(text: string, origin: real, width: real, fontMap: char -> Glyph) returns (trace: seq<Placement>)
    ensures trace == Layout(text, origin, width, fontMap)
  {
    trace := [];
    if |text| > 0 {
      var words := Split(text);
      var cX, cY, cW, cH := origin, origin, 0.0, 0.0;
      var len := |words|;
      var i := 0;
      while i < len
        invariant i <= len
        invariant Pen(cX, cY, cW, cH, trace) == DrawWords(Pen(origin, origin, 0.0, 0.0, []), words[..i], len, origin, width, fontMap)
      {
        ghost var before := Pen(cX, cY, cW, cH, trace);
        DrawWordsStep(Pen(origin, origin, 0.0, 0.0, []), words, i, len, origin, width, fontMap);
        if Overflows(cX, cW, len, width) {
          cX := origin;
          cY := cY + cH;
        }
        var word := words[i];
        ghost var start := Pen(cX, cY, cW, cH, trace);
        assert start == Wrap(before, len, origin, width);
        var j := 0;
        while j < |word|
          invariant j <= |word|
          invariant Pen(cX, cY, cW, cH, trace) == DrawAll(start, word[..j], fontMap)
        {
          DrawAllStep(start, word, j, fontMap);
          var c := fontMap(word[j]);
          cW := c.width;
          cH := c.height;
          trace := trace + [Placement(word[j], cX, cY, cW, cH)];
          cX := cX + cW;
          j := j + 1;
        }
        assert word[..j] == word;
        var c := fontMap(' ');
        cW := c.width;
        cH := c.height;
        trace := trace + [Placement(' ', cX, cY, cW, cH)];
        cX := cX + cW;
        i := i + 1;
      }
      assert words[..i] == words;
    }
  }
}
