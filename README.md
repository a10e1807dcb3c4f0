# NoobOSDL core: use-counted resource cache and text fill policies

This project models the two parts of the NoobOSDL binding layer that make decisions of their own, and proves properties of the model in Dafny:

- **The resource manager** (`src/ResourceManager.cs`). It keeps three dictionaries from file path to a stored resource with a use count, one each for textures, audio clips and music. `Load*` reuses a stored entry and counts one more use. For a new path it runs the loader and stores the result with one use. `Unload*` counts one use less and forgets the entry once the count is at most zero. The three dictionaries share one generic class, `Resources.ResourceCache<T>`, whose `stored` field is a `map<string, Entry<T>>`. The loaders are a function parameter that returns a resource or the message of the exception it throws. A ghost log records every loader call. `Resources.ResourceManager` holds the three caches and the `AssignedRenderer` slot.
- **Text textures** (`src/Renderer.cs`). `CreateTextTexture` switches on the fill policy of a `TextParameters` object and may overwrite its rectangle. The best-fit policy does four things. It splits the text on `' '`. It renders every piece plus a trailing space. It takes the tallest surface as the line height. It then packs the surfaces greedily into lines and accepts a pass when the packed block is strictly lower than the rectangle. Native surfaces are modelled by their `(w, h)` sizes. The native library is the oracle `TextLayout.Native`: whether a font opens, which surface a string renders to, and which texture handle an upload gives.
- **Supporting types.** `Textures.Texture` models `src/Texture.cs`: its `disposed` flag and dispose paths. A ghost counter records native destroy calls, and a pure `Lifecycle` state machine states the same steps. `Colors` models `src/SDLColor.cs`: the RGBA record, its constructors, `BLACK` and the native conversion.

Packing and the accept test both read the *unscaled* rectangle (`src/Renderer.cs:388`, `:402`). The float `size` only feeds the allocation of the candidate surface (`:382`). So the `while (!done)` loop either stops after its first pass or never stops. In the model the loop is bounded by a `fuel` count of extra passes. `CreateTextTextureBestFit` proves that it returns after exactly one pass when that pass is accepted. Otherwise it runs out of fuel with `Diverges`. Ghost counts show what leaks: every rejected pass allocates a surface that is never freed.

Three behaviours of the code differ from what a reader might expect, and the model follows the code:
- `Unload*` only removes the dictionary entry. It makes no destroy call; the native handle is released by the resource's finalizer.
- Best-fit packs against the unscaled rectangle, not the grown candidate surface, so growing never helps.
- Word surfaces rendered before a failing word are not freed.

## Model

| member | source | states |
|---|---|---|
| Colors.OpaqueColor | src/SDLColor.cs:79-85 | the three-argument colour keeps r, g, b and has alpha 255 |
| Colors.ColorWithAlpha | src/SDLColor.cs:94-100 | the four-argument colour keeps all four channels as given |
| Colors.Black | src/SDLColor.cs:71 | `BLACK` is (0, 0, 0, 255) |
| Colors.ToNativeColor | src/SDLColor.cs:102-110 | each native channel equals the managed channel |
| Colors.NativeRoundTrip | src/SDLColor.cs:102-110 | the conversion loses nothing: converting back gives the same colour |
| Colors.ToNativeColorInjective | src/SDLColor.cs:102-110 | distinct colours reach the renderer as distinct native colours |
| Colors.OpaqueIsFullAlpha | src/SDLColor.cs:79-100 | the opaque constructor equals the four-argument one with alpha 255 |
| Textures.DisposeStep | src/Texture.cs:139-149 | `Dispose(bool)` on the lifecycle: nothing once disposed; otherwise one destroy iff `disposing`, and `disposed` set |
| Textures.PublicDispose | src/Texture.cs:133-137 | `Dispose()` on the lifecycle: `Dispose(true)`, then the finalizer suppressed |
| Textures.FinalizeStep | src/Texture.cs:123-127 | the finalizer on the lifecycle: one destroy, then `Dispose(false)`, and the finalizer marked as run |
| Textures.Collect | src/Texture.cs:123-137 | the end of the object's life: the finalizer runs unless `Dispose()` suppressed it |
| Textures.Texture.constructor | src/Texture.cs:115-121 | stores the handle, width and height unchanged; not disposed, no destroy made |
| Textures.Texture.DestroyNative | src/Texture.cs:125 | `SDL_DestroyTexture`: the destroy count grows by one |
| Textures.Texture.DisposeCore | src/Texture.cs:139-149 | `Dispose(bool)`: a no-op once disposed; otherwise destroys iff `disposing`, then sets `disposed` |
| Textures.Texture.Dispose | src/Texture.cs:133-137 | `Dispose(true)` then the finalizer is suppressed |
| Textures.Texture.Finalize | src/Texture.cs:123-127 | an unconditional destroy, then `Dispose(false)` |
| Textures.FirstDisposeDestroys | src/Texture.cs:133-149 | the first `Dispose()` destroys once, sets `disposed` and suppresses the finalizer |
| Textures.DisposedIsNoOp | src/Texture.cs:141 | once disposed, `Dispose(bool)` changes nothing for either argument |
| Textures.DisposeFalseDoesNotDestroy | src/Texture.cs:139-148 | `Dispose(false)` sets `disposed` without a destroy |
| Textures.DisposeTimesStable | src/Texture.cs:133-141 | after a `Dispose()`, any number of further calls change nothing |
| Textures.DisposeAtMostOnce | src/Texture.cs:133-149 | n calls of `Dispose()` on a new texture destroy it once if n > 0, never if n = 0 |
| Textures.LifetimeDestroysExactlyOnce | src/Texture.cs:123-149 | whatever number of `Dispose()` calls, `Dispose()` plus the finalizer destroy exactly once over the texture's life |
| Textures.DisposeFalseThenDisposeNeverDestroys | src/Texture.cs:123-149 | a protected `Dispose(false)` before `Dispose()` leaves the handle never destroyed |
| Resources.LoadSpec | src/ResourceManager.cs:90-105 | `Load*` on the dictionary: a stored path returns its resource with one more use and no loader call; otherwise the loader runs, and its resource is added with one use or its error returned with the dictionary unchanged |
| Resources.UnloadSpec | src/ResourceManager.cs:111-123 | `Unload*` on the dictionary: nothing for a path not stored; otherwise one use less, and the entry removed once at most zero uses are left |
| Resources.LoadAbsent | src/ResourceManager.cs:90-105 | loading a path not stored calls the loader once; on success it stores the resource with one use, on failure the dictionary is unchanged |
| Resources.LoadPresent | src/ResourceManager.cs:93-100 | loading a stored path returns the same resource, counts one more use and does not call the loader |
| Resources.LoadFailureKeepsStore | src/ResourceManager.cs:102-103 | a failing loader leaves the dictionary unchanged (the loader runs before `Add`) |
| Resources.UnloadAbsent | src/ResourceManager.cs:113-116 | unloading a path that is not stored changes nothing |
| Resources.UnloadPresent | src/ResourceManager.cs:117-121 | unloading a stored path keeps it exactly when the decremented count is positive, with that count and the same resource |
| Resources.OperationsAreLocal | src/ResourceManager.cs:90-123 | load and unload leave every other path's entry as it was |
| Resources.InUsePreserved | src/ResourceManager.cs:50-54 | every stored entry keeps at least one use through loads and unloads |
| Resources.LoadTimesPresent | src/ResourceManager.cs:93-100 | n loads of a stored path add n uses and call the loader zero times |
| Resources.RepeatedLoads | src/ResourceManager.cs:90-105 | n >= 1 loads of a new path call the loader exactly once and leave n uses |
| Resources.RepeatedUnloads | src/ResourceManager.cs:111-123 | k unloads of a path with n uses leave n - k uses if k < n, and remove it otherwise |
| Resources.UnloadTimesAbsent | src/ResourceManager.cs:113-116 | any number of unloads of a path not stored change nothing |
| Resources.LoadUnloadBalance | src/ResourceManager.cs:90-123 | after n loads and k < n unloads the path has n - k uses; after n or more unloads the dictionary is as before the loads |
| Resources.AssignedRendererSpec | src/ResourceManager.cs:68-75 | the getter's value: the renderer set before, else the first registered one, else none |
| Resources.AssignedRendererSticky | src/ResourceManager.cs:68-75 | once the getter yields a renderer, later reads keep it whatever is registered |
| Resources.AssignedRendererChoice | src/ResourceManager.cs:68-75 | the getter returns the set renderer, else adopts the first registered one, else none |
| Resources.ResourceCache.constructor | src/ResourceManager.cs:83 | a cache starts empty |
| Resources.ResourceCache.Load | src/ResourceManager.cs:90-105 | the result and the new dictionary follow `LoadSpec`; the loader is logged iff the path was not stored |
| Resources.ResourceCache.Unload | src/ResourceManager.cs:111-123 | the new dictionary follows `UnloadSpec`; no loader call |
| Resources.ResourceManager.constructor | src/ResourceManager.cs:62-199 | three distinct empty dictionaries, no loader calls yet, and no renderer |
| Resources.ResourceManager.AssignedRenderer | src/ResourceManager.cs:68-75 | the getter, adopting the first registered renderer when none is set |
| Resources.ResourceManager.SetAssignedRenderer | src/ResourceManager.cs:76-79 | the setter stores its value |
| Resources.ResourceManager.LoadTexture | src/ResourceManager.cs:90-105 | loads through the texture cache, calling the loader only for a path not stored; audio and music unchanged |
| Resources.ResourceManager.UnloadTexture | src/ResourceManager.cs:111-123 | unloads from the texture cache without calling the loader; audio and music unchanged |
| Resources.ResourceManager.LoadAudio | src/ResourceManager.cs:156-171 | loads through the audio cache, calling the loader only for a path not stored; textures and music unchanged |
| Resources.ResourceManager.UnloadAudio | src/ResourceManager.cs:177-189 | unloads from the audio cache without calling the loader; textures and music unchanged |
| Resources.ResourceManager.LoadMusic | src/ResourceManager.cs:205-220 | loads through the music cache, calling the loader only for a path not stored; textures and audio unchanged |
| Resources.ResourceManager.UnloadMusic | src/ResourceManager.cs:226-238 | unloads from the music cache without calling the loader; textures and audio unchanged |
| TextLayout.CreateTextSurface | src/Renderer.cs:303-325 | a surface exactly when the font opens and the blended render succeeds, and then the rendered one; "Failed to load font." when the font does not open, else "Unable to render text surface." |
| TextLayout.Split | src/Renderer.cs:347 | `String.Split(' ')`: the pieces between single spaces, empty pieces included, at least one |
| TextLayout.SplitPieces | src/Renderer.cs:347 | splitting gives one piece more than there are spaces (empty pieces included), and no piece holds a space |
| TextLayout.JoinSplit | src/Renderer.cs:347 | joining the pieces with spaces gives back the text |
| TextLayout.SplitJoin | src/Renderer.cs:347 | splitting a join of space-free pieces gives back the pieces |
| TextLayout.WordSurfaces | src/Renderer.cs:348-354 | the surface of every word plus one trailing space, in order, or the error of the first word that fails |
| TextLayout.WordSurfacesOk | src/Renderer.cs:348-354 | when all words render there is one surface per word: the one of that word plus one trailing space |
| TextLayout.WordSurfacesErr | src/Renderer.cs:351-354 | the first word that fails to render decides the error |
| TextLayout.RenderWords | src/Renderer.cs:348-354 | the loop fills the array with the word surfaces, or stops at the first failure with the earlier surfaces left unfreed |
| TextLayout.MaxHeight | src/Renderer.cs:371-376 | the line height: the largest surface height, starting from 0 |
| TextLayout.MaxHeightIsMaximum | src/Renderer.cs:371-376 | the line height is at least every surface's height and equals one of them |
| TextLayout.LineHeight | src/Renderer.cs:371-376 | the max loop computes the line height |
| TextLayout.Pack | src/Renderer.cs:383-400 | one placement per word, and the final line index is at most the number of words and is the last word's line |
| TextLayout.PackPrefix | src/Renderer.cs:385-400 | packing a prefix of the words places them as packing all of them does |
| TextLayout.PackAccWidth | src/Renderer.cs:399 | the width used on the current line is where the last word ends |
| TextLayout.WrapRule | src/Renderer.cs:388-394 | word i starts a new line at x = 0 iff accWidth + w_i > Rect.Width, else it goes at x = accWidth on the current line |
| TextLayout.NeighbouringWords | src/Renderer.cs:385-399 | the line index grows by 0 or 1 per word, exactly when the word would pass the edge; same-line words are adjacent |
| TextLayout.FirstWord | src/Renderer.cs:383-394 | the first word goes at x = 0, on line 1 if it is wider than the rectangle, else on line 0 |
| TextLayout.WordsFitTheirLine | src/Renderer.cs:388-394 | a word not at the start of its line ends within the rectangle's width |
| TextLayout.LinesAreMonotonic | src/Renderer.cs:385-399 | line indexes never decrease along the words |
| TextLayout.Blit | src/Renderer.cs:393-397 | the destination rectangle of one word: its x offset, its line times the line height, its own size |
| TextLayout.PackPass | src/Renderer.cs:383-400 | the packing loop blits each word at (x, line * height) with its own size and ends on the packed line |
| TextLayout.PassAccepted | src/Renderer.cs:402 | a pass is accepted when the final line index times the line height, plus one line height, is below the unscaled rectangle's height |
| TextLayout.OneLineAccepted | src/Renderer.cs:402 | with everything on line 0 a pass is accepted iff the line height is below the rectangle's height |
| TextLayout.AcceptedMeansLinesFit | src/Renderer.cs:402 | a pass is accepted iff (lines used) * height < Rect.Height, strictly |
| TextLayout.RetryLoop | src/Renderer.cs:378-407 | the `while (!done)` loop stops after one pass exactly when the first pass is accepted; otherwise every pass is rejected and it uses all its fuel; each pass creates one candidate surface |
| TextLayout.CreateTextTextureBestFit | src/Renderer.cs:345-426 | render errors propagate, leaving unfreed exactly the surfaces of the words before the first failing one; an accepted first pass ends after one pass with a texture of the rectangle's size and frees every surface, or leaks only the accepted surface when the upload fails; a rejected one never ends, leaking the word surfaces and a surface per pass |
| Rendering.TextParameters.constructor | src/Renderer.cs:76-110 | the defaults: size 32, black, NO_FIT, rectangle (0, 0, 320, 36) |
| Rendering.CreateTextTextureNoFit | src/Renderer.cs:327-343 | the texture has the rendered surface's size; font, render and upload failures become errors; the surface is freed, except when the upload fails |
| Rendering.Truncate | src/Renderer.cs:288-289 | the `(int)` cast: truncation toward zero |
| Rendering.KeepAspectSize | src/Renderer.cs:272-289 | in exact arithmetic, the texture size scaled by the smaller of the width and height ratios to the rectangle, then truncated |
| Rendering.KeepAspectFits | src/Renderer.cs:269-292 | the aspect-preserving size fits in the rectangle and, in exact arithmetic, fills it along one axis |
| Rendering.Creates | src/Renderer.cs:249-301 | whether creation returns a texture: the surfaces render, best fit's pass is accepted, and the upload succeeds |
| Rendering.CreationError | src/Renderer.cs:249-301 | the exception creation raises, if any: the first font or render error, then best fit's endless loop, then the failed upload |
| Rendering.CreationErrorIffNoTexture | src/Renderer.cs:249-343 | creation raises nothing exactly when it returns a texture; the policies other than best fit raise only the font, render or upload error |
| Rendering.RectAfter | src/Renderer.cs:249-301 | the caller's rectangle after creation: unchanged without a texture; the texture's size under NO_FIT; the scaled size under KEEP_ASPECT for a non-empty texture; unchanged otherwise |
| Rendering.RectAfterPolicies | src/Renderer.cs:249-301 | the rectangle keeps its position and is left alone when no texture is made; NO_FIT gives it the text's size, KEEP_ASPECT keeps it inside the old one and, in exact arithmetic, fills one axis, SCALED_FIT and BEST_FIT leave it |
| Rendering.CreateTextTexture | src/Renderer.cs:249-301 | a texture is returned exactly when the policy's surfaces render, best fit's first pass is accepted and the upload succeeds, with the uploaded handle; otherwise the exception is the first font or render error, then `Diverges`, then the upload error; NO_FIT overwrites the rectangle's size with the texture's; KEEP_ASPECT with the scaled size; SCALED_FIT and BEST_FIT leave it; errors leave it |
| Rendering.DrawText | src/Renderer.cs:240-247 | draws exactly when `CreateTextTexture` returns a texture and raises the same exception otherwise, leaving the caller's rectangle as `CreateTextTexture` sets it; the texture is disposed at the end of the `using` block: one destroy, finalizer suppressed |

## Left out

- Native calls are parameters, not models. This covers font opening, glyph rendering, surface creation, blitting, texture upload, and image, WAV and MUS decoding. The `DoLoad*` functions are a loader parameter; the text routines use `TextLayout.Native`.
- The texture loader reads `AssignedRenderer` itself, and that read can adopt a renderer as a side effect. The loader parameter does not model this.
- The texture loader leaks its surface when the upload fails, and `CreateTextSurface` does not close the font when rendering fails. Neither native handle is modelled. The surfaces the text routines leak are counted by ghost values (`leaked` of `Rendering.CreateTextTextureNoFit` and `TextLayout.CreateTextTextureBestFit`); `Rendering.CreateTextTexture` and `Rendering.DrawText` do not pass the count on.
- The endian mask selection and the pixel format of the candidate surface are not modelled.
- The float `size` of best fit is not modelled. Nothing but the allocation of the candidate surface reads it. On the accepted first pass the surface has the rectangle's size, which assumes `(int)((float)n * 1)` is exact (true up to 2^24).
- CreateTextTextureBestFit: the unbounded `while (!done)` loop is bounded by `fuel` extra passes. Running out of fuel returns `Diverges`, which stands for a call that never returns.
- Rendering.KeepAspectFits: the "fills one axis" half holds only in exact arithmetic. The source computes in 32-bit floats, and the truncation can land one short: a 133 by 10 text in the default 320 by 36 rectangle gives 133f * (320f / 133f) just under 320 (about 319.99997), so width 319. `Rendering.RectAfterPolicies` inherits this.
- Rendering.CreateTextTexture: KEEP_ASPECT_SCALED_FIT uses exact real arithmetic, not 32-bit float rounding. When the texture has a zero width or height, the float division gives infinity or NaN; the model leaves the rectangle unchanged there.
- Uses counts are unbounded integers. The C# `int` would wrap after 2^31 - 1 loads of one path without an unload.
- `line * height` in best fit is an unbounded integer, not a 32-bit product.
- `SDLColor` is a class with setters in C#, and `BLACK` returns a new object on every read. The model treats colours as values, so aliasing of colour objects is not modelled. `Rect` is treated the same way.
- Garbage-collector timing is not modelled. The collector is the `Collect` step: it runs the finalizer once, unless `Dispose()` suppressed it.
- The draw call in `DrawText` is native and is not modelled.
- A null `text`, `fontPath` or `file` throws in the source (`text.Split` in best fit, the dictionary lookups in `Load*` and `Unload*`). Strings are values here and are never null.
- An out-of-range `TFT` value makes `CreateTextTexture` return null, and `DrawText` then fails on it. `FillType` has only the four policies, so no such value exists here.
- `TextError` keeps only which exception is raised. The native diagnostic appended to its message (`TTF_GetError`, `SDL_GetError`) is not modelled.
- Not part of this model: window and renderer creation (`src/SDL.cs`), event dispatch (`src/Events/`), audio and music playback (`src/Audio.cs`, `src/Music.cs`), `src/Window.cs` and the example program.
