/**
 * The text fill policies of src/Renderer.cs: `TextParameters` and the
 * `CreateTextTexture` switch, which may overwrite the caller's rectangle.
 */
module Rendering {
  import opened Wrappers
  import opened Colors
  import opened Textures
  import opened TextLayout

  /** `TextParameters.TextFillType`. */
  datatype FillType = NoFit | BestFit | ScaledFit | KeepAspectScaledFit

  /** The text parameters object the caller passes and the renderer may update. */
  class TextParameters {
    var Size: int
    var Color: SDLColor
    var TFT: FillType
    var Rect: Rect

    /** The field initialisers: size 32, black, no fit, a 320 by 36 rectangle at the origin. */
    constructor ()
      ensures Size == 32 && Color == Black() && TFT == NoFit
      ensures Rect == TextLayout.Rect(0, 0, 320, 36)
    {
      Size := 32;
      Color := Black();
      TFT := NoFit;
      Rect := TextLayout.Rect(0, 0, 320, 36);
    }
  }

  /**
   * `CreateTextTextureNoFit`: one surface for the whole text, uploaded, at its
   * natural size. `leaked` counts the native surfaces left unfreed: the
   * upload failure throws before the surface is freed.
   */
  method CreateTextTextureNoFit(text: string, fontPath: string, size: int, color: SDLColor, native: Native)
    returns (r: Result<Texture, TextError>, ghost leaked: nat)
    ensures
      var surface := CreateTextSurface(native, fontPath, size, color, text);
      && (surface.Err? ==> r == Err(surface.error) && leaked == 0)
      && (surface.Ok? && native.upload(surface.value.w, surface.value.h).None? ==>
            r == Err(TextureCreateFailed) && leaked == 1)
      && (surface.Ok? && native.upload(surface.value.w, surface.value.h).Some? ==>
            && r.Ok? && fresh(r.value)
            && r.value.texturePtr == native.upload(surface.value.w, surface.value.h).value
            && r.value.Width == surface.value.w && r.value.Height == surface.value.h
            && r.value.State() == Fresh
            && leaked == 0)
  {
    ghost var made, released := 0, 0;
    var surface := CreateTextSurface(native, fontPath, size, color, text);
    if surface.Err? {
      return Err(surface.error), made - released;
    }
    made := made + 1;
    var handle := native.upload(surface.value.w, surface.value.h);
    if handle.None? {
      return Err(TextureCreateFailed), made - released;
    }
    var texture := new Texture(handle.value, surface.value.w, surface.value.h);
    // SDL_FreeSurface(surface)
    released := released + 1;
    r, leaked := Ok(texture), made - released;
  }

  /** A C# `(int)` cast of a real: truncation toward zero. */
  function Truncate(x: real): int
  {
    if x >= 0.0 then x.Floor else -((-x).Floor)
  }

  /**
   * KEEP_ASPECT_SCALED_FIT, in exact arithmetic: scale the texture size by
   * the smaller of the width and height ratios to the rectangle, and
   * truncate.
   */
  function KeepAspectSize(rect: Rect, tw: nat, th: nat): (int, int)
    requires tw > 0 && th > 0
  {
    var wvar := rect.Width as real / tw as real;
    var hvar := rect.Height as real / th as real;
    var ratio := if wvar < hvar then wvar else hvar;
    (Truncate(tw as real * ratio), Truncate(th as real * ratio))
  }

  /**
   * For a rectangle of non-negative size, the scaled size fits inside it and,
   * in exact arithmetic, fills it along the axis with the smaller ratio.
   */
  lemma KeepAspectFits(rect: Rect, tw: nat, th: nat)
    requires tw > 0 && th > 0 && rect.Width >= 0 && rect.Height >= 0
    ensures 0 <= KeepAspectSize(rect, tw, th).0 <= rect.Width
    ensures 0 <= KeepAspectSize(rect, tw, th).1 <= rect.Height
    ensures KeepAspectSize(rect, tw, th).0 == rect.Width || KeepAspectSize(rect, tw, th).1 == rect.Height
  {
    var W, H, w, h := rect.Width as real, rect.Height as real, tw as real, th as real;
    var wvar, hvar := W / w, H / h;
    assert w * wvar == W;
    assert h * hvar == H;
    if wvar < hvar {
      assert h * wvar <= h * hvar;
      assert 0.0 <= h * wvar;
    } else {
      assert w * hvar <= w * wvar;
      assert 0.0 <= w * hvar;
    }
  }

  /** Whether `CreateTextTexture` returns a texture for these parameters (rather than throwing or never returning). */
  predicate Creates(text: string, fontPath: string, size: int, color: SDLColor, tft: FillType, rect: Rect,
                    native: Native)
  {
    if tft == BestFit then
      var surfaces := WordSurfaces(native, fontPath, size, color, Split(text, ' '));
      surfaces.Ok? && PassAccepted(surfaces.value, rect) && native.upload(rect.Width, rect.Height).Some?
    else
      var surface := CreateTextSurface(native, fontPath, size, color, text);
      surface.Ok? && native.upload(surface.value.w, surface.value.h).Some?
  }

  /**
   * The exception `CreateTextTexture` raises for these parameters, if any:
   * the first render error, then (best fit only) the loop that never ends,
   * then the failed upload. `Diverges` stands for the call not returning.
   */
  function CreationError(text: string, fontPath: string, size: int, color: SDLColor, tft: FillType, rect: Rect,
                         native: Native): Option<TextError>
  {
    if tft == BestFit then
      var surfaces := WordSurfaces(native, fontPath, size, color, Split(text, ' '));
      if surfaces.Err? then Some(surfaces.error)
      else if !PassAccepted(surfaces.value, rect) then Some(Diverges)
      else if native.upload(rect.Width, rect.Height).None? then Some(TextureCreateFailed)
      else None
    else
      var surface := CreateTextSurface(native, fontPath, size, color, text);
      if surface.Err? then Some(surface.error)
      else if native.upload(surface.value.w, surface.value.h).None? then Some(TextureCreateFailed)
      else None
  }

  /**
   * Creation raises nothing exactly when it returns a texture. A policy
   * other than best fit always returns, and its errors come from the font,
   * the render or the upload.
   */
  lemma CreationErrorIffNoTexture(text: string, fontPath: string, size: int, color: SDLColor, tft: FillType,
                                  rect: Rect, native: Native)
    ensures CreationError(text, fontPath, size, color, tft, rect, native).None?
        <==> Creates(text, fontPath, size, color, tft, rect, native)
    ensures tft != BestFit ==>
      CreationError(text, fontPath, size, color, tft, rect, native) in
        {None, Some(FontOpenFailed), Some(GlyphRenderFailed), Some(TextureCreateFailed)}
  {
    if tft != BestFit {
      var surface := CreateTextSurface(native, fontPath, size, color, text);
      if surface.Err? {
        assert surface.error in {FontOpenFailed, GlyphRenderFailed};
      }
    }
  }

  /** The caller's rectangle after `CreateTextTexture` with these parameters. */
  function RectAfter(text: string, fontPath: string, size: int, color: SDLColor, tft: FillType, rect: Rect,
                     native: Native): Rect
  {
    var surface := CreateTextSurface(native, fontPath, size, color, text);
    if !Creates(text, fontPath, size, color, tft, rect, native) || surface.Err? then rect
    else match tft
      case NoFit => rect.(Width := surface.value.w, Height := surface.value.h)
      case KeepAspectScaledFit =>
        if surface.value.w > 0 && surface.value.h > 0 then
          var scaled := KeepAspectSize(rect, surface.value.w, surface.value.h);
          rect.(Width := scaled.0, Height := scaled.1)
        else rect
      case _ => rect
  }

  /**
   * The rectangle keeps its position under every policy and is left alone
   * when no texture is made. NO_FIT gives it the rendered text's size.
   * KEEP_ASPECT_SCALED_FIT keeps it inside the old rectangle, filling one
   * axis in exact arithmetic. SCALED_FIT and BEST_FIT leave it as it was.
   */
  lemma RectAfterPolicies(text: string, fontPath: string, size: int, color: SDLColor, tft: FillType, rect: Rect,
                          native: Native)
    ensures
      var after := RectAfter(text, fontPath, size, color, tft, rect, native);
      var surface := CreateTextSurface(native, fontPath, size, color, text);
      && after.X == rect.X && after.Y == rect.Y
      && (!Creates(text, fontPath, size, color, tft, rect, native) ==> after == rect)
      && (tft in {ScaledFit, BestFit} ==> after == rect)
      && (tft == NoFit && Creates(text, fontPath, size, color, tft, rect, native) ==>
            after.Width == surface.value.w && after.Height == surface.value.h)
      && (tft == KeepAspectScaledFit && rect.Width >= 0 && rect.Height >= 0 ==>
            && 0 <= after.Width <= rect.Width && 0 <= after.Height <= rect.Height
            && (after.Width == rect.Width || after.Height == rect.Height))
  {
    var surface := CreateTextSurface(native, fontPath, size, color, text);
    if tft == KeepAspectScaledFit && rect.Width >= 0 && rect.Height >= 0
       && Creates(text, fontPath, size, color, tft, rect, native) && surface.value.w > 0 && surface.value.h > 0 {
      KeepAspectFits(rect, surface.value.w, surface.value.h);
    }
  }

  /**
   * `CreateTextTexture`: the switch on the fill policy. NO_FIT overwrites
   * the rectangle's size with the texture's; KEEP_ASPECT_SCALED_FIT
   * overwrites it with the aspect-preserving scaled size; SCALED_FIT and
   * BEST_FIT leave it alone. An exception leaves the rectangle unchanged.
   */
  method CreateTextTexture(text: string, fontPath: string, p: TextParameters, native: Native, fuel: nat)
    returns (r: Result<Texture, TextError>)
    modifies p
    ensures p.Size == old(p.Size) && p.Color == old(p.Color) && p.TFT == old(p.TFT)
    ensures p.Rect.X == old(p.Rect.X) && p.Rect.Y == old(p.Rect.Y)
    ensures r.Ok? ==> fresh(r.value) && r.value.State() == Fresh
    ensures r.Err? ==> p.Rect == old(p.Rect)
    ensures old(p.TFT) != BestFit ==>
      var surface := CreateTextSurface(native, fontPath, old(p.Size), old(p.Color), text);
      && (r.Ok? <==> surface.Ok? && native.upload(surface.value.w, surface.value.h).Some?)
      && (surface.Err? ==> r == Err(surface.error))
      && (surface.Ok? && native.upload(surface.value.w, surface.value.h).None? ==> r == Err(TextureCreateFailed))
      && (r.Ok? ==>
            && r.value.texturePtr == native.upload(surface.value.w, surface.value.h).value
            && r.value.Width == surface.value.w && r.value.Height == surface.value.h)
    ensures r.Ok? && old(p.TFT) == NoFit ==>
      p.Rect.Width == r.value.Width && p.Rect.Height == r.value.Height
    ensures old(p.TFT) in {ScaledFit, BestFit} ==> p.Rect == old(p.Rect)
    ensures r.Ok? && old(p.TFT) == KeepAspectScaledFit ==>
      if r.value.Width > 0 && r.value.Height > 0
      then (p.Rect.Width, p.Rect.Height) == KeepAspectSize(old(p.Rect), r.value.Width, r.value.Height)
      else p.Rect == old(p.Rect)
    ensures old(p.TFT) == BestFit ==>
      var words := Split(text, ' ');
      var surfaces := WordSurfaces(native, fontPath, old(p.Size), old(p.Color), words);
      && (surfaces.Err? ==> r == Err(surfaces.error))
      && (r.Ok? ==> surfaces.Ok? && PassAccepted(surfaces.value, old(p.Rect)))
      && (r.Ok? ==> r.value.Width == old(p.Rect).Width && r.value.Height == old(p.Rect).Height)
      && (surfaces.Ok? && !PassAccepted(surfaces.value, old(p.Rect)) ==> r == Err(Diverges))
      && ((surfaces.Ok? && PassAccepted(surfaces.value, old(p.Rect))
           && native.upload(old(p.Rect).Width, old(p.Rect).Height).Some?) ==> r.Ok?)
      && ((surfaces.Ok? && PassAccepted(surfaces.value, old(p.Rect))
           && native.upload(old(p.Rect).Width, old(p.Rect).Height).None?) ==> r == Err(TextureCreateFailed))
      && (r.Ok? ==> r.value.texturePtr == native.upload(old(p.Rect).Width, old(p.Rect).Height).value)
    ensures r.Ok? <==> Creates(text, fontPath, old(p.Size), old(p.Color), old(p.TFT), old(p.Rect), native)
    ensures r.Err? ==> CreationError(text, fontPath, old(p.Size), old(p.Color), old(p.TFT), old(p.Rect), native)
                       == Some(r.error)
    ensures p.Rect == RectAfter(text, fontPath, old(p.Size), old(p.Color), old(p.TFT), old(p.Rect), native)
  {
    match p.TFT
    case NoFit =>
      ghost var leaked;
      r, leaked := CreateTextTextureNoFit(text, fontPath, p.Size, p.Color, native);
      if r.Ok? {
        p.Rect := p.Rect.(Height := r.value.Height, Width := r.value.Width);
      }
    case ScaledFit =>
      ghost var leaked;
      r, leaked := CreateTextTextureNoFit(text, fontPath, p.Size, p.Color, native);
    case KeepAspectScaledFit =>
      ghost var leaked;
      r, leaked := CreateTextTextureNoFit(text, fontPath, p.Size, p.Color, native);
      if r.Ok? && r.value.Width > 0 && r.value.Height > 0 {
        var scaled := KeepAspectSize(p.Rect, r.value.Width, r.value.Height);
        p.Rect := p.Rect.(Width := scaled.0, Height := scaled.1);
      }
    case BestFit =>
      ghost var passes, leaked;
      r, passes, leaked := CreateTextTextureBestFit(text, fontPath, p.Size, p.Color, p.Rect, native, fuel);
  }

  /**
   * `DrawText`: create the texture, draw it into the (possibly updated)
   * rectangle, and dispose of it when the `using` block ends. The texture is
   * destroyed exactly once, and its finalizer is suppressed.
   */
  method DrawText(text: string, fontPath: string, p: TextParameters, native: Native, fuel: nat)
    returns (r: Result<(), TextError>, ghost drawn: Texture?)
    modifies p
    ensures p.Size == old(p.Size) && p.Color == old(p.Color) && p.TFT == old(p.TFT)
    ensures r.Ok? <==> Creates(text, fontPath, old(p.Size), old(p.Color), old(p.TFT), old(p.Rect), native)
    ensures p.Rect == RectAfter(text, fontPath, old(p.Size), old(p.Color), old(p.TFT), old(p.Rect), native)
    ensures r.Err? ==> CreationError(text, fontPath, old(p.Size), old(p.Color), old(p.TFT), old(p.Rect), native)
                       == Some(r.error)
    ensures old(p.TFT) == BestFit ==>
      var surfaces := WordSurfaces(native, fontPath, old(p.Size), old(p.Color), Split(text, ' '));
      surfaces.Ok? && !PassAccepted(surfaces.value, old(p.Rect)) ==> r == Err(Diverges)
    ensures r.Ok? ==> drawn != null && fresh(drawn) && drawn.State() == PublicDispose(Fresh)
    ensures r.Ok? ==> drawn.State().destroys == 1 && drawn.State().suppressed
    ensures r.Err? ==> p.Rect == old(p.Rect)
  {
    var created := CreateTextTexture(text, fontPath, p, native, fuel);
    if created.Err? {
      return Err(created.error), null;
    }
    var texture := created.value;
    // The draw call itself (SDL_RenderCopy into p.Rect) is native.
    texture.Dispose();
    r, drawn := Ok(()), texture;
  }
}
