/**
 * The dispose state machine of the texture wrapper in src/Texture.cs.
 *
 * A texture owns one native texture handle. `Dispose()` releases it through
 * `Dispose(true)` and suppresses the finalizer; the finalizer releases it
 * unconditionally and then calls `Dispose(false)`. The `disposed` flag makes
 * every later `Dispose` a no-op. The number of native destroy calls is kept
 * in a ghost counter.
 */
module Textures {

  /** An opaque native pointer. */
  type Handle = int

  /**
   * Where a texture is in its life: the `disposed` flag, whether the
   * finalizer has been suppressed, whether it has run, and how many native
   * destroy calls were made for this texture.
   */
  datatype Lifecycle = Lifecycle(disposed: bool, suppressed: bool, finalized: bool, destroys: nat)

  /** The state right after construction. */
  const Fresh := Lifecycle(false, false, false, 0)

  /** `Dispose(bool disposing)`: once disposed, nothing; otherwise destroy iff disposing, then mark disposed. */
  function DisposeStep(s: Lifecycle, disposing: bool): Lifecycle
  {
    if s.disposed then s
    else s.(disposed := true, destroys := s.destroys + if disposing then 1 else 0)
  }

  /** The public `Dispose()`: `Dispose(true)` followed by suppressing the finalizer. */
  function PublicDispose(s: Lifecycle): Lifecycle
  {
    DisposeStep(s, true).(suppressed := true)
  }

  /** The finalizer: an unconditional destroy, then `Dispose(false)`. */
  function FinalizeStep(s: Lifecycle): Lifecycle
  {
    DisposeStep(s.(destroys := s.destroys + 1), false).(finalized := true)
  }

  /** End of the object's life: the collector runs the finalizer unless it was suppressed. */
  function Collect(s: Lifecycle): Lifecycle
  {
    if s.suppressed then s else FinalizeStep(s)
  }

  /** `n` successive calls of the public `Dispose()`. */
  function DisposeTimes(s: Lifecycle, n: nat): Lifecycle
    decreases n
  {
    if n == 0 then s else DisposeTimes(PublicDispose(s), n - 1)
  }

  /** The first `Dispose()` destroys once and marks the texture disposed. */
  lemma FirstDisposeDestroys(s: Lifecycle)
    requires !s.disposed
    ensures PublicDispose(s).disposed && PublicDispose(s).suppressed
    ensures PublicDispose(s).destroys == s.destroys + 1
  {
  }

  /** Once disposed, `Dispose(bool)` changes nothing, whatever its argument. */
  lemma DisposedIsNoOp(s: Lifecycle, disposing: bool)
    requires s.disposed
    ensures DisposeStep(s, disposing) == s
  {
  }

  /** `Dispose(false)` marks the texture disposed without a native destroy. */
  lemma DisposeFalseDoesNotDestroy(s: Lifecycle)
    ensures DisposeStep(s, false).disposed
    ensures DisposeStep(s, false).destroys == s.destroys
  {
  }

  /** Repeated `Dispose()` calls after the first change nothing. */
  lemma {:induction false} DisposeTimesStable(s: Lifecycle, n: nat)
    requires s.disposed && s.suppressed
    ensures DisposeTimes(s, n) == s
  {
    if n > 0 {
      assert PublicDispose(s) == s;
      DisposeTimesStable(s, n - 1);
    }
  }

  /** However many times `Dispose()` is called on a new texture, it destroys at most once. */
  lemma DisposeAtMostOnce(n: nat)
    ensures DisposeTimes(Fresh, n).destroys == if n == 0 then 0 else 1
  {
    if n > 0 {
      DisposeTimesStable(PublicDispose(Fresh), n - 1);
    }
  }

  /**
   * Whether or not `Dispose()` is called (any number of times), the texture's
   * whole life makes exactly one native destroy call.
   */
  lemma LifetimeDestroysExactlyOnce(n: nat)
    ensures Collect(DisposeTimes(Fresh, n)).destroys == 1
    ensures Collect(DisposeTimes(Fresh, n)).disposed
  {
    DisposeAtMostOnce(n);
    if n > 0 {
      DisposeTimesStable(PublicDispose(Fresh), n - 1);
    }
  }

  /**
   * The protected `Dispose(false)`, when called before the public
   * `Dispose()`, leaves the texture with no destroy at all: the flag is set,
   * so `Dispose()` skips the destroy, and it suppresses the finalizer.
   */
  lemma DisposeFalseThenDisposeNeverDestroys()
    ensures Collect(PublicDispose(DisposeStep(Fresh, false))).destroys == 0
  {
  }

  /**
   * The texture object. Width and height are fixed at construction; the
   * native handle is only released through the dispose paths below.
   */
  class Texture {
    const texturePtr: Handle
    const Width: int
    const Height: int
    var disposed: bool
    ghost var suppressed: bool
    ghost var finalized: bool
    ghost var destroys: nat

    ghost function State(): Lifecycle
      reads this
    {
      Lifecycle(disposed, suppressed, finalized, destroys)
    }

    /** Stores the handle and the dimensions as given. */
    constructor (texture: Handle, w: int, h: int)
      ensures texturePtr == texture && Width == w && Height == h
      ensures State() == Fresh
    {
      texturePtr := texture;
      Width := w;
      Height := h;
      disposed := false;
      suppressed := false;
      finalized := false;
      destroys := 0;
    }

    /** The native destroy call, counted. */
    method DestroyNative()
      modifies this`destroys
      ensures destroys == old(destroys) + 1
    {
      destroys := destroys + 1;
    }

    /** `Dispose(bool disposing)`. */
    method DisposeCore(disposing: bool)
      modifies this
      ensures State() == DisposeStep(old(State()), disposing)
    {
      if disposed {
        return;
      }
      if disposing {
        DestroyNative();
      }
      disposed := true;
    }

    /** The public `Dispose()`. */
    method Dispose()
      modifies this
      ensures State() == PublicDispose(old(State()))
    {
      DisposeCore(true);
      suppressed := true;
    }

    /** The finalizer, which the collector runs at most once and only when it was not suppressed. */
    method Finalize()
      requires !suppressed && !finalized
      modifies this
      ensures State() == FinalizeStep(old(State()))
    {
      DestroyNative();
      DisposeCore(false);
      finalized := true;
    }
  }
}
