/**
 * The best-fit text layout of src/Renderer.cs (`CreateTextTextureBestFit`).
 *
 * The text is split on single spaces; every piece plus one trailing space
 * is rendered to its own surface; the tallest surface gives the line
 * height; the surfaces are then packed greedily, left to right, into lines
 * no wider than the target rectangle, and the pass is accepted when the
 * packed block is strictly lower than the rectangle. Native surfaces are
 * modelled by their sizes, and the native library by the oracle `Native`.
 */
module TextLayout {
  import opened Wrappers
  import opened Colors
  import opened Textures

  /** The size of a native surface. */
  datatype SurfaceSize = SurfaceSize(w: nat, h: nat)

  /** A rectangle (`Rect`): position and size. */
  datatype Rect = Rect(X: int, Y: int, Width: int, Height: int)

  /** The destination rectangle of one blit (`SDL_Rect r`). */
  datatype BlitRect = BlitRect(x: int, y: int, w: int, h: int)

  /** The exceptions the text routines throw. */
  datatype TextError =
    | FontOpenFailed        // "Failed to load font."
    | GlyphRenderFailed     // "Unable to render text surface."
    | TextureCreateFailed   // "Unable to create texture from rendered text."
    | Diverges              // the best-fit loop never accepts a pass: the call does not return

  /**
   * The native library as seen by the text routines: whether a font file
   * opens at a point size, the surface the blended renderer produces for a
   * font, size, colour and string (none on failure), and the texture handle
   * created from a surface of a given size (none on failure).
   */
  datatype Native = Native(
    openFont: (string, int) -> bool,
    renderText: (string, int, NativeColor, string) -> Option<SurfaceSize>,
    upload: (int, int) -> Option<Handle>)

  /** `CreateTextSurface`: open the font, then render the string with it. */
  function CreateTextSurface(native: Native, fontPath: string, size: int, color: SDLColor, text: string)
    : (r: Result<SurfaceSize, TextError>)
    ensures r.Ok? <==> native.openFont(fontPath, size) && native.renderText(fontPath, size, ToNativeColor(color), text).Some?
    ensures r.Ok? ==> r.value == native.renderText(fontPath, size, ToNativeColor(color), text).value
    ensures !native.openFont(fontPath, size) ==> r == Err(FontOpenFailed)
    ensures native.openFont(fontPath, size) && native.renderText(fontPath, size, ToNativeColor(color), text).None? ==>
      r == Err(GlyphRenderFailed)
  {
    if !native.openFont(fontPath, size) then Err(FontOpenFailed)
    else match native.renderText(fontPath, size, ToNativeColor(color), text)
      case None => Err(GlyphRenderFailed)
      case Some(s) => Ok(s)
  }

  // ---------------------------------------------------------------- splitting

  /** How many times `c` occurs in `s`. */
  function Occurrences(s: string, c: char): nat
  {
    if s == [] then 0 else (if s[0] == c then 1 else 0) + Occurrences(s[1..], c)
  }

  /** `String.Split(sep)`: the pieces between separators, empty pieces included. */
  function Split(s: string, sep: char): (pieces: seq<string>)
    ensures |pieces| >= 1
  {
    if s == [] then [[]]
    else if s[0] == sep then [[]] + Split(s[1..], sep)
    else
      var rest := Split(s[1..], sep);
      [[s[0]] + rest[0]] + rest[1..]
  }

  /** The inverse of `Split`: the pieces with one separator between neighbours. */
  function Join(pieces: seq<string>, sep: char): string
  {
    if |pieces| == 0 then []
    else if |pieces| == 1 then pieces[0]
    else pieces[0] + [sep] + Join(pieces[1..], sep)
  }

  /** There is one piece more than there are separators, and no piece holds a separator. */
  lemma {:induction false} SplitPieces(s: string, sep: char)
    ensures |Split(s, sep)| == Occurrences(s, sep) + 1
    ensures forall i :: 0 <= i < |Split(s, sep)| ==> sep !in Split(s, sep)[i]
  {
    if s != [] {
      SplitPieces(s[1..], sep);
    }
  }

  /** Joining the pieces gives back the text: splitting loses nothing. */
  lemma {:induction false} JoinSplit(s: string, sep: char)
    ensures Join(Split(s, sep), sep) == s
  {
    if s != [] {
      JoinSplit(s[1..], sep);
      var rest := Split(s[1..], sep);
      if s[0] == sep {
        assert s == [sep] + s[1..];
      } else {
        var pieces := Split(s, sep);
        assert pieces == [[s[0]] + rest[0]] + rest[1..];
        if |rest| == 1 {
          assert s == [s[0]] + rest[0];
        } else {
          assert pieces[1..] == rest[1..];
          assert Join(rest, sep) == rest[0] + [sep] + Join(rest[1..], sep);
          assert s == [s[0]] + s[1..];
        }
      }
    }
  }

  /** Splitting a join of separator-free pieces gives back the pieces. */
  lemma {:induction false} SplitJoin(pieces: seq<string>, sep: char)
    requires |pieces| >= 1
    requires forall i :: 0 <= i < |pieces| ==> sep !in pieces[i]
    ensures Split(Join(pieces, sep), sep) == pieces
  {
    if |pieces| == 1 {
      SplitWithoutSeparator(pieces[0], sep);
    } else {
      SplitJoin(pieces[1..], sep);
      SplitAfterPiece(pieces[0], Join(pieces[1..], sep), sep);
      assert pieces == [pieces[0]] + pieces[1..];
    }
  }

  lemma {:induction false} SplitWithoutSeparator(p: string, sep: char)
    requires sep !in p
    ensures Split(p, sep) == [p]
  {
    if p != [] {
      SplitWithoutSeparator(p[1..], sep);
      assert p == [p[0]] + p[1..];
    }
  }

  lemma {:induction false} SplitAfterPiece(p: string, t: string, sep: char)
    requires sep !in p
    ensures Split(p + [sep] + t, sep) == [p] + Split(t, sep)
  {
    var s := p + [sep] + t;
    if p == [] {
      assert s == [sep] + t;
      assert s[1..] == t;
    } else {
      assert s[0] == p[0] && s[1..] == p[1..] + [sep] + t;
      SplitAfterPiece(p[1..], t, sep);
      assert p == [p[0]] + p[1..];
    }
  }

  // ---------------------------------------------------------------- word surfaces

  /** The surfaces of the words, each rendered with one trailing space, in order; the first failure wins. */
  function WordSurfaces(native: Native, fontPath: string, size: int, color: SDLColor, words: seq<string>)
    : Result<seq<SurfaceSize>, TextError>
    decreases |words|
  {
    if |words| == 0 then Ok([])
    else match WordSurfaces(native, fontPath, size, color, words[..|words| - 1])
      case Err(e) => Err(e)
      case Ok(prev) =>
        match CreateTextSurface(native, fontPath, size, color, words[|words| - 1] + " ")
        case Err(e) => Err(e)
        case Ok(s) => Ok(prev + [s])
  }

  /** When all words render, there is one surface per word: the one of that word plus a space. */
  lemma {:induction false} WordSurfacesOk(native: Native, fontPath: string, size: int, color: SDLColor, words: seq<string>)
    requires WordSurfaces(native, fontPath, size, color, words).Ok?
    ensures |WordSurfaces(native, fontPath, size, color, words).value| == |words|
    ensures forall i :: 0 <= i < |words| ==>
      CreateTextSurface(native, fontPath, size, color, words[i] + " ")
        == Ok(WordSurfaces(native, fontPath, size, color, words).value[i])
    decreases |words|
  {
    if |words| > 0 {
      var front := words[..|words| - 1];
      WordSurfacesOk(native, fontPath, size, color, front);
      forall i | 0 <= i < |words| - 1
        ensures words[i] == front[i]
      {
      }
    }
  }

  /** Rendering fails exactly when some word fails, and then with that word's error when it is the first. */
  lemma {:induction false} WordSurfacesErr(native: Native, fontPath: string, size: int, color: SDLColor,
                                           words: seq<string>, k: nat)
    requires k < |words|
    requires forall j :: 0 <= j < k ==> CreateTextSurface(native, fontPath, size, color, words[j] + " ").Ok?
    requires CreateTextSurface(native, fontPath, size, color, words[k] + " ").Err?
    ensures WordSurfaces(native, fontPath, size, color, words)
         == Err(CreateTextSurface(native, fontPath, size, color, words[k] + " ").error)
    decreases |words|
  {
    var front := words[..|words| - 1];
    if k < |words| - 1 {
      forall j | 0 <= j <= k
        ensures front[j] == words[j]
      {
      }
      WordSurfacesErr(native, fontPath, size, color, front, k);
    } else {
      WordSurfacesPrefixOk(native, fontPath, size, color, front);
    }
  }

  lemma {:induction false} WordSurfacesPrefixOk(native: Native, fontPath: string, size: int, color: SDLColor,
                                                words: seq<string>)
    requires forall j :: 0 <= j < |words| ==> CreateTextSurface(native, fontPath, size, color, words[j] + " ").Ok?
    ensures WordSurfaces(native, fontPath, size, color, words).Ok?
    decreases |words|
  {
    if |words| > 0 {
      var front := words[..|words| - 1];
      forall j | 0 <= j < |front|
        ensures front[j] == words[j]
      {
      }
      WordSurfacesPrefixOk(native, fontPath, size, color, front);
    }
  }

  /**
   * The first loop of best fit: render every word plus a trailing space into
   * the `textures` array. `created` counts the surfaces made; on a failure
   * they are the ones before the failing word, and nothing frees them.
   */
  method RenderWords(native: Native, fontPath: string, size: int, color: SDLColor, words: seq<string>)
    returns (r: Result<seq<SurfaceSize>, TextError>, ghost created: nat)
    ensures r == WordSurfaces(native, fontPath, size, color, words)
    ensures r.Ok? ==> created == |words|
    ensures r.Err? ==>
      && created < |words|
      && WordSurfaces(native, fontPath, size, color, words[..created]).Ok?
      && CreateTextSurface(native, fontPath, size, color, words[created] + " ") == Err(r.error)
  {
    var textures := new SurfaceSize[|words|];
    var i := 0;
    while i < |words|
      invariant 0 <= i <= |words|
      invariant WordSurfaces(native, fontPath, size, color, words[..i]) == Ok(textures[..i])
    {
      var s := CreateTextSurface(native, fontPath, size, color, words[i] + " ");
      if s.Err? {
        var upTo := words[..i + 1];
        assert upTo[..|upTo| - 1] == words[..i] && upTo[|upTo| - 1] == words[i];
        assert WordSurfaces(native, fontPath, size, color, upTo) == Err(s.error);
        WordSurfacesErrExtends(native, fontPath, size, color, words, i + 1);
        return Err(s.error), i;
      }
      textures[i] := s.value;
      assert words[..i + 1][..i] == words[..i];
      assert textures[..i + 1] == textures[..i] + [s.value];
      i := i + 1;
    }
    assert words[..i] == words && textures[..i] == textures[..];
    r := Ok(textures[..]);
    created := i;
  }

  /** A failure on a prefix of the words is the failure of all of them. */
  lemma {:induction false} WordSurfacesErrExtends(native: Native, fontPath: string, size: int, color: SDLColor,
                                                  words: seq<string>, j: nat)
    requires j <= |words|
    requires WordSurfaces(native, fontPath, size, color, words[..j]).Err?
    ensures WordSurfaces(native, fontPath, size, color, words) == WordSurfaces(native, fontPath, size, color, words[..j])
    decreases |words| - j
  {
    if j < |words| {
      var front := words[..|words| - 1];
      assert front[..j] == words[..j];
      WordSurfacesErrExtends(native, fontPath, size, color, front, j);
    } else {
      assert words[..j] == words;
    }
  }

  // ---------------------------------------------------------------- line height

  /** The tallest surface, scanning left to right from 0 (`height`). */
  function MaxHeight(s: seq<SurfaceSize>): nat
    decreases |s|
  {
    if |s| == 0 then 0
    else
      var m := MaxHeight(s[..|s| - 1]);
      if s[|s| - 1].h > m then s[|s| - 1].h else m
  }

  /** The line height is at least every surface's height, and is the height of one of them (or 0 with no surfaces). */
  lemma {:induction false} MaxHeightIsMaximum(s: seq<SurfaceSize>)
    ensures forall i :: 0 <= i < |s| ==> s[i].h <= MaxHeight(s)
    ensures |s| > 0 ==> exists i :: 0 <= i < |s| && s[i].h == MaxHeight(s)
    decreases |s|
  {
    if |s| > 0 {
      var front := s[..|s| - 1];
      MaxHeightIsMaximum(front);
      forall i | 0 <= i < |front|
        ensures s[i] == front[i]
      {
      }
      if MaxHeight(s) != s[|s| - 1].h {
        var j :| 0 <= j < |front| && front[j].h == MaxHeight(front);
        assert s[j].h == MaxHeight(s);
      }
    }
  }

  /** The second loop of best fit: the line height. */
  method LineHeight(surfaces: seq<SurfaceSize>) returns (height: nat)
    ensures height == MaxHeight(surfaces)
    ensures forall i :: 0 <= i < |surfaces| ==> surfaces[i].h <= height
  {
    height := 0;
    var i := 0;
    while i < |surfaces|
      invariant 0 <= i <= |surfaces|
      invariant height == MaxHeight(surfaces[..i])
    {
      assert surfaces[..i + 1][..i] == surfaces[..i];
      if surfaces[i].h > height {
        height := surfaces[i].h;
      }
      i := i + 1;
    }
    assert surfaces[..i] == surfaces;
    MaxHeightIsMaximum(surfaces);
  }

  // ---------------------------------------------------------------- greedy packing

  /** Where one word goes: its x offset on its line, and the index of the line. */
  datatype Placement = Placement(x: int, line: nat)

  /** The packing so far: the placements made, the current line, and the width used on it (`accWidth`). */
  datatype Packing = Packing(placed: seq<Placement>, line: nat, accWidth: int)

  /**
   * Greedy packing into lines of the given width: a word that would pass
   * the right edge starts a new line at x = 0, otherwise it goes right after
   * the previous word.
   */
  function Pack(ws: seq<SurfaceSize>, width: int): (p: Packing)
    ensures |p.placed| == |ws|
    ensures p.line <= |ws|
    ensures |ws| == 0 ==> p.line == 0
    ensures |ws| > 0 ==> p.line == p.placed[|ws| - 1].line
    decreases |ws|
  {
    if |ws| == 0 then Packing([], 0, 0)
    else
      var prev := Pack(ws[..|ws| - 1], width);
      var w := ws[|ws| - 1].w;
      var wraps := prev.accWidth + w > width;
      var line := if wraps then prev.line + 1 else prev.line;
      var x := if wraps then 0 else prev.accWidth;
      Packing(prev.placed + [Placement(x, line)], line, x + w)
  }

  /** Packing a prefix of the words places them exactly as packing all of them does. */
  lemma {:induction false} PackPrefix(ws: seq<SurfaceSize>, width: int, j: nat)
    requires j <= |ws|
    ensures Pack(ws[..j], width).placed == Pack(ws, width).placed[..j]
    decreases |ws|
  {
    if j < |ws| {
      var front := ws[..|ws| - 1];
      assert front[..j] == ws[..j];
      PackPrefix(front, width, j);
    } else {
      assert ws[..j] == ws;
    }
  }

  /** The width used on the current line after some words is where the last of them ends. */
  lemma PackAccWidth(ws: seq<SurfaceSize>, width: int)
    requires |ws| > 0
    ensures Pack(ws, width).accWidth == Pack(ws, width).placed[|ws| - 1].x + ws[|ws| - 1].w
  {
  }

  /**
   * The wrap rule: word `i` starts a new line, at x = 0, exactly when the
   * width used so far plus its own width passes `width`; otherwise it goes
   * on the current line at the width used so far.
   */
  lemma WrapRule(ws: seq<SurfaceSize>, width: int, i: nat)
    requires i < |ws|
    ensures
      var before := Pack(ws[..i], width);
      var p := Pack(ws, width).placed[i];
      && (before.accWidth + ws[i].w > width ==> p == Placement(0, before.line + 1))
      && (before.accWidth + ws[i].w <= width ==> p == Placement(before.accWidth, before.line))
  {
    PackPrefix(ws, width, i + 1);
    var upTo := ws[..i + 1];
    assert upTo[..|upTo| - 1] == ws[..i] && upTo[|upTo| - 1] == ws[i];
  }

  /**
   * Two neighbouring words: the line index never goes down and grows by at
   * most one; it grows exactly when the second word would pass the right
   * edge; on the same line the second word starts where the first ends, and
   * on a new line it starts at x = 0.
   */
  lemma NeighbouringWords(ws: seq<SurfaceSize>, width: int, i: nat)
    requires i + 1 < |ws|
    ensures
      var a := Pack(ws, width).placed[i];
      var b := Pack(ws, width).placed[i + 1];
      && a.line <= b.line <= a.line + 1
      && (b.line == a.line + 1 <==> a.x + ws[i].w + ws[i + 1].w > width)
      && (b.line == a.line ==> b.x == a.x + ws[i].w)
      && (b.line == a.line + 1 ==> b.x == 0)
  {
    WrapRule(ws, width, i + 1);
    var upTo := ws[..i + 1];
    PackPrefix(ws, width, i + 1);
    PackAccWidth(upTo, width);
    assert upTo[i] == ws[i];
  }

  /** The first word goes at x = 0, on line 0, or on line 1 when it is wider than the rectangle. */
  lemma FirstWord(ws: seq<SurfaceSize>, width: int)
    requires |ws| > 0
    ensures Pack(ws, width).placed[0] == Placement(0, if ws[0].w > width then 1 else 0)
  {
    WrapRule(ws, width, 0);
  }

  /** A word placed after another on its line fits within the rectangle's width. */
  lemma WordsFitTheirLine(ws: seq<SurfaceSize>, width: int, i: nat)
    requires i < |ws|
    ensures Pack(ws, width).placed[i].x == 0 || Pack(ws, width).placed[i].x + ws[i].w <= width
  {
    WrapRule(ws, width, i);
  }

  /** Line indexes never decrease along the words. */
  lemma {:induction false} LinesAreMonotonic(ws: seq<SurfaceSize>, width: int, i: nat, j: nat)
    requires i <= j < |ws|
    ensures Pack(ws, width).placed[i].line <= Pack(ws, width).placed[j].line
    decreases j - i
  {
    if i < j {
      NeighbouringWords(ws, width, j - 1);
      LinesAreMonotonic(ws, width, i, j - 1);
    }
  }

  /** The blit of one placed word: at its x offset, on its line, with its own size. */
  function Blit(p: Placement, lineHeight: nat, s: SurfaceSize): BlitRect
  {
    BlitRect(p.x, p.line * lineHeight, s.w, s.h)
  }

  /**
   * One packing pass (the `for` loop inside `while (!done)`): the blit of
   * every word onto the candidate surface, and the final line index. It
   * reads only the unscaled rectangle width.
   */
  method PackPass(ws: seq<SurfaceSize>, width: int, lineHeight: nat) returns (blits: seq<BlitRect>, line: nat)
    ensures line == Pack(ws, width).line
    ensures |blits| == |ws|
    ensures forall i :: 0 <= i < |ws| ==> blits[i] == Blit(Pack(ws, width).placed[i], lineHeight, ws[i])
  {
    var accWidth := 0;
    line := 0;
    blits := [];
    var i := 0;
    while i < |ws|
      invariant 0 <= i <= |ws|
      invariant Pack(ws[..i], width).line == line
      invariant Pack(ws[..i], width).accWidth == accWidth
      invariant |blits| == i
      invariant forall k :: 0 <= k < i ==> blits[k] == Blit(Pack(ws[..i], width).placed[k], lineHeight, ws[k])
    {
      var upTo := ws[..i + 1];
      assert upTo[..|upTo| - 1] == ws[..i] && upTo[|upTo| - 1] == ws[i];
      if accWidth + ws[i].w > width {
        line := line + 1;
        accWidth := 0;
      }
      blits := blits + [BlitRect(accWidth, line * lineHeight, ws[i].w, ws[i].h)];
      accWidth := accWidth + ws[i].w;
      i := i + 1;
    }
    assert ws[..i] == ws;
  }

  /** The acceptance test of a pass: the packed block is strictly lower than the unscaled rectangle. */
  predicate PassAccepted(ws: seq<SurfaceSize>, rect: Rect)
  {
    var lineHeight := MaxHeight(ws);
    Pack(ws, rect.Width).line * lineHeight + lineHeight < rect.Height
  }

  /** When the words fit on the first line, a pass is accepted exactly when one line is lower than the rectangle. */
  lemma OneLineAccepted(ws: seq<SurfaceSize>, rect: Rect)
    requires Pack(ws, rect.Width).line == 0
    ensures PassAccepted(ws, rect) <==> MaxHeight(ws) < rect.Height
  {
  }

  /**
   * A pass is accepted exactly when the number of lines used (one more than
   * the final line index) times the line height is below the rectangle's
   * height.
   */
  lemma AcceptedMeansLinesFit(ws: seq<SurfaceSize>, rect: Rect)
    ensures PassAccepted(ws, rect) <==> (Pack(ws, rect.Width).line + 1) * MaxHeight(ws) < rect.Height
  {
    MultiplySuccessor(Pack(ws, rect.Width).line, MaxHeight(ws));
  }

  lemma MultiplySuccessor(a: int, b: int)
    ensures (a + 1) * b == a * b + b
  {
  }

  // ---------------------------------------------------------------- best fit

  /**
   * The `while (!done)` loop of best fit, bounded by `fuel` retries. It stops
   * after one pass exactly when that pass is accepted; otherwise nothing
   * changes between passes and it uses up all of its fuel.
   */
  method RetryLoop(textures: seq<SurfaceSize>, rect: Rect, height: nat, fuel: nat)
    returns (done: bool, passes: nat, ghost made: nat)
    requires height == MaxHeight(textures)
    ensures done == PassAccepted(textures, rect)
    ensures passes == if done then 1 else fuel + 1
    ensures made == passes
  {
    done := false;
    passes := 0;
    made := 0;
    while !done && passes <= fuel
      invariant passes <= fuel + 1
      invariant passes == 0 ==> !done
      invariant passes > 0 ==> done == PassAccepted(textures, rect)
      invariant done ==> passes == 1
      invariant made == passes
      decreases fuel + 1 - passes
    {
      // SDL_CreateRGBSurface at the current scale: a new surface every pass, never freed on retry.
      made := made + 1;
      var blits, line := PackPass(textures, rect.Width, height);
      if line * height + height < rect.Height {
        done := true;
      }
      passes := passes + 1;
    }
  }

  /**
   * `CreateTextTextureBestFit`. The `while (!done)` loop is bounded here by
   * `fuel` extra passes; in the source it is unbounded. Every pass packs
   * against the same unscaled rectangle, so the loop stops after its first
   * pass or would never stop: `Diverges` stands for the latter. `passes`
   * counts the passes run. `made` and `released` count the native surfaces
   * the call creates and frees, where the source creates and frees them, and
   * `leaked` is what is left: the word surfaces rendered before a failing
   * word, or every surface of an endless loop, or the accepted surface when
   * its upload fails.
   */
  method CreateTextTextureBestFit(text: string, fontPath: string, size: int, color: SDLColor, rect: Rect,
                                  native: Native, fuel: nat)
    returns (r: Result<Texture, TextError>, ghost passes: nat, ghost leaked: nat)
    ensures
      var words := Split(text, ' ');
      var surfaces := WordSurfaces(native, fontPath, size, color, words);
      && (surfaces.Err? ==>
            && r == Err(surfaces.error) && passes == 0
            && leaked < |words|
            && WordSurfaces(native, fontPath, size, color, words[..leaked]).Ok?
            && CreateTextSurface(native, fontPath, size, color, words[leaked] + " ") == Err(surfaces.error))
      && (surfaces.Ok? && !PassAccepted(surfaces.value, rect) ==>
            r == Err(Diverges) && passes == fuel + 1 && leaked == |words| + passes)
      && (surfaces.Ok? && PassAccepted(surfaces.value, rect) ==>
            passes == 1
            && (native.upload(rect.Width, rect.Height).None? ==> r == Err(TextureCreateFailed) && leaked == 1)
            && (native.upload(rect.Width, rect.Height).Some? ==>
                  && r.Ok? && fresh(r.value)
                  && r.value.texturePtr == native.upload(rect.Width, rect.Height).value
                  && r.value.Width == rect.Width && r.value.Height == rect.Height
                  && r.value.State() == Fresh
                  && leaked == 0))
  {
    var words := Split(text, ' ');
    ghost var made, released := 0, 0;
    var rendered, created := RenderWords(native, fontPath, size, color, words);
    made := made + created;
    if rendered.Err? {
      return Err(rendered.error), 0, made - released;
    }
    var textures := rendered.value;
    var height := LineHeight(textures);

    var done;
    ghost var candidates;
    done, passes, candidates := RetryLoop(textures, rect, height, fuel);
    made := made + candidates;
    if !done {
      return Err(Diverges), passes, made - released;
    }

    // Free the word surfaces.
    for i := 0 to |words|
      invariant released == i
    {
      released := released + 1;
    }

    var handle := native.upload(rect.Width, rect.Height);
    if handle.None? {
      return Err(TextureCreateFailed), passes, made - released;
    }
    var texture := new Texture(handle.value, rect.Width, rect.Height);
    // Free the accepted candidate surface.
    released := released + 1;
    r, leaked := Ok(texture), made - released;
  }
}
