/**
 * The use-counted resource cache of src/ResourceManager.cs.
 *
 * Textures, audio clips and music tracks are each kept in a dictionary from
 * file path to a stored resource with a use count. Loading a stored path
 * reuses the entry and counts one more use; loading a new path runs the
 * loader and stores its result with one use. Unloading counts one use less
 * and forgets the entry once no use is left. The three dictionaries share
 * one generic class here; the loader is a function parameter that may fail.
 */
module Resources {
  import opened Wrappers

  /** `StoredResource<T>`: the loaded resource and how many loads still hold it. */
  datatype Entry<T> = Entry(resource: T, uses: int)

  /** One dictionary of stored resources, keyed by file path. */
  type Store<T> = map<string, Entry<T>>

  /** A loader: the resource for a path, or the message of the exception it throws. */
  type Loader<T> = string -> Result<T, string>

  /** What one `Load` call does: its result, the dictionary after it, and whether it ran the loader. */
  datatype LoadStep<T> = LoadStep(result: Result<T, string>, after: Store<T>, loaderCalled: bool)

  /** Every stored entry is held by at least one load. */
  ghost predicate AllInUse<T>(m: Store<T>)
  {
    forall p :: p in m ==> m[p].uses >= 1
  }

  /** Two dictionaries agree on every path other than `path`. */
  ghost predicate SameElsewhere<T>(m: Store<T>, m': Store<T>, path: string)
  {
    (forall q :: q != path ==> (q in m <==> q in m'))
    && (forall q :: q != path && q in m ==> m'[q] == m[q])
  }

  /** `Load*`: reuse a stored entry, or run the loader before inserting anything. */
  function LoadSpec<T>(m: Store<T>, path: string, loader: Loader<T>): LoadStep<T>
  {
    if path in m then
      LoadStep(Ok(m[path].resource), m[path := m[path].(uses := m[path].uses + 1)], false)
    else
      match loader(path)
      case Err(e) => LoadStep(Err(e), m, true)
      case Ok(res) => LoadStep(Ok(res), m[path := Entry(res, 1)], true)
  }

  /** `Unload*`: count one use less, and forget the entry once no use is left. */
  function UnloadSpec<T>(m: Store<T>, path: string): Store<T>
  {
    if path !in m then m
    else if m[path].uses - 1 <= 0 then m - {path}
    else m[path := m[path].(uses := m[path].uses - 1)]
  }

  /** A path that is not stored is loaded by one loader call, and stored with one use if it succeeds. */
  lemma LoadAbsent<T>(m: Store<T>, path: string, loader: Loader<T>)
    requires path !in m
    ensures LoadSpec(m, path, loader).loaderCalled
    ensures LoadSpec(m, path, loader).result == loader(path)
    ensures loader(path).Ok? ==> LoadSpec(m, path, loader).after == m[path := Entry(loader(path).value, 1)]
    ensures loader(path).Err? ==> LoadSpec(m, path, loader).after == m
  {
  }

  /** A stored path is reused: the same resource, one more use, and no loader call. */
  lemma LoadPresent<T>(m: Store<T>, path: string, loader: Loader<T>)
    requires path in m
    ensures !LoadSpec(m, path, loader).loaderCalled
    ensures LoadSpec(m, path, loader).result == Ok(m[path].resource)
    ensures path in LoadSpec(m, path, loader).after
    ensures LoadSpec(m, path, loader).after[path].resource == m[path].resource
    ensures LoadSpec(m, path, loader).after[path].uses == m[path].uses + 1
  {
  }

  /** A failing loader leaves the dictionary as it was. */
  lemma LoadFailureKeepsStore<T>(m: Store<T>, path: string, loader: Loader<T>)
    requires LoadSpec(m, path, loader).result.Err?
    ensures LoadSpec(m, path, loader).after == m
    ensures path !in m
  {
  }

  /** Unloading a path that is not stored changes nothing. */
  lemma UnloadAbsent<T>(m: Store<T>, path: string)
    requires path !in m
    ensures UnloadSpec(m, path) == m
  {
  }

  /** Unloading a stored path removes it exactly when its decremented count is at most zero. */
  lemma UnloadPresent<T>(m: Store<T>, path: string)
    requires path in m
    ensures path in UnloadSpec(m, path) <==> m[path].uses - 1 > 0
    ensures path in UnloadSpec(m, path) ==>
      UnloadSpec(m, path)[path] == Entry(m[path].resource, m[path].uses - 1)
  {
  }

  /** Loading and unloading touch only the entry of the path they are given. */
  lemma OperationsAreLocal<T>(m: Store<T>, path: string, loader: Loader<T>)
    ensures SameElsewhere(m, LoadSpec(m, path, loader).after, path)
    ensures SameElsewhere(m, UnloadSpec(m, path), path)
  {
  }

  /** Every stored entry keeps at least one use, through loads and unloads alike. */
  lemma InUsePreserved<T>(m: Store<T>, path: string, loader: Loader<T>)
    requires AllInUse(m)
    ensures AllInUse(LoadSpec(m, path, loader).after)
    ensures AllInUse(UnloadSpec(m, path))
  {
  }

  /** `n` successive loads of one path: the dictionary after them and the number of loader calls. */
  function LoadTimes<T>(m: Store<T>, path: string, loader: Loader<T>, n: nat): (Store<T>, nat)
    decreases n
  {
    if n == 0 then (m, 0)
    else
      var step := LoadSpec(m, path, loader);
      var rest := LoadTimes(step.after, path, loader, n - 1);
      (rest.0, rest.1 + if step.loaderCalled then 1 else 0)
  }

  /** `k` successive unloads of one path. */
  function UnloadTimes<T>(m: Store<T>, path: string, k: nat): Store<T>
    decreases k
  {
    if k == 0 then m else UnloadTimes(UnloadSpec(m, path), path, k - 1)
  }

  /** Loads of a stored path only add uses and never call the loader. */
  lemma {:induction false} LoadTimesPresent<T>(m: Store<T>, path: string, loader: Loader<T>, n: nat)
    requires path in m
    ensures path in LoadTimes(m, path, loader, n).0
    ensures LoadTimes(m, path, loader, n).0 == m[path := Entry(m[path].resource, m[path].uses + n)]
    ensures LoadTimes(m, path, loader, n).1 == 0
  {
    if n > 0 {
      var after := LoadSpec(m, path, loader).after;
      LoadTimesPresent(after, path, loader, n - 1);
      assert after[path := Entry(after[path].resource, after[path].uses + (n - 1))]
          == m[path := Entry(m[path].resource, m[path].uses + n)];
    }
  }

  /**
   * `n >= 1` loads of a path that is not stored, with a loader that
   * succeeds: the loader runs exactly once, and the entry holds its
   * resource with `n` uses.
   */
  lemma RepeatedLoads<T>(m: Store<T>, path: string, loader: Loader<T>, n: nat)
    requires path !in m && loader(path).Ok? && n >= 1
    ensures LoadTimes(m, path, loader, n).0 == m[path := Entry(loader(path).value, n)]
    ensures LoadTimes(m, path, loader, n).1 == 1
  {
    var after := m[path := Entry(loader(path).value, 1)];
    assert LoadSpec(m, path, loader).after == after;
    LoadTimesPresent(after, path, loader, n - 1);
    assert after[path := Entry(after[path].resource, after[path].uses + (n - 1))]
        == m[path := Entry(loader(path).value, n)];
  }

  /** Unloads of a path with `n` uses: `k < n` of them leave `n - k` uses, any more remove it. */
  lemma {:induction false} RepeatedUnloads<T>(m: Store<T>, path: string, n: int, k: nat)
    requires path in m && m[path].uses == n && n >= 1
    ensures k < n ==> UnloadTimes(m, path, k) == m[path := Entry(m[path].resource, n - k)]
    ensures k >= n ==> UnloadTimes(m, path, k) == m - {path}
  {
    if k > 0 {
      var after := UnloadSpec(m, path);
      if n - 1 <= 0 {
        assert after == m - {path};
        UnloadTimesAbsent(after, path, k - 1);
      } else {
        RepeatedUnloads(after, path, n - 1, k - 1);
        if k < n {
          assert after[path := Entry(after[path].resource, n - 1 - (k - 1))]
              == m[path := Entry(m[path].resource, n - k)];
        } else {
          assert after - {path} == m - {path};
        }
      }
    } else {
      assert m[path := Entry(m[path].resource, n)] == m;
    }
  }

  /** Unloading a path that is not stored, any number of times, changes nothing. */
  lemma {:induction false} UnloadTimesAbsent<T>(m: Store<T>, path: string, k: nat)
    requires path !in m
    ensures UnloadTimes(m, path, k) == m
  {
    if k > 0 {
      UnloadTimesAbsent(UnloadSpec(m, path), path, k - 1);
    }
  }

  /**
   * After `n` loads and `m < n` unloads of a path that was not stored, it is
   * stored with `n - m` uses; after `n` unloads it is gone, and every other
   * entry is as it was.
   */
  lemma LoadUnloadBalance<T>(s: Store<T>, path: string, loader: Loader<T>, n: nat, k: nat)
    requires path !in s && loader(path).Ok? && n >= 1
    ensures k < n ==>
      UnloadTimes(LoadTimes(s, path, loader, n).0, path, k) == s[path := Entry(loader(path).value, n - k)]
    ensures k >= n ==> UnloadTimes(LoadTimes(s, path, loader, n).0, path, k) == s
  {
    RepeatedLoads(s, path, loader, n);
    var loaded := s[path := Entry(loader(path).value, n)];
    RepeatedUnloads(loaded, path, n, k);
    if k < n {
      assert loaded[path := Entry(loaded[path].resource, n - k)]
          == s[path := Entry(loader(path).value, n - k)];
    } else {
      assert loaded - {path} == s;
    }
  }

  /** The getter of `AssignedRenderer`: the renderer set before, else the first registered one, if any. */
  function AssignedRendererSpec<R>(current: Option<R>, registered: seq<R>): Option<R>
  {
    if current.Some? then current
    else if |registered| > 0 then Some(registered[0])
    else None
  }

  /** Once the getter yields a renderer, that choice sticks whatever is registered later. */
  lemma AssignedRendererSticky<R>(current: Option<R>, first: seq<R>, later: seq<R>)
    requires AssignedRendererSpec(current, first).Some?
    ensures AssignedRendererSpec(AssignedRendererSpec(current, first), later)
         == AssignedRendererSpec(current, first)
  {
  }

  /** The getter adopts the first registered renderer only when none was set. */
  lemma AssignedRendererChoice<R>(current: Option<R>, registered: seq<R>)
    ensures current.Some? ==> AssignedRendererSpec(current, registered) == current
    ensures current.None? && |registered| > 0 ==> AssignedRendererSpec(current, registered) == Some(registered[0])
    ensures current.None? && |registered| == 0 ==> AssignedRendererSpec(current, registered).None?
  {
  }

  /** One of the three dictionaries, with a ghost log of the paths its loader was called for. */
  class ResourceCache<T> {
    var stored: Store<T>
    ghost var loaderCalls: seq<string>

    ghost predicate Valid()
      reads this
    {
      AllInUse(stored)
    }

    constructor ()
      ensures Valid()
      ensures stored == map[] && loaderCalls == []
    {
      stored := map[];
      loaderCalls := [];
    }

    /** `Load*`. */
    method Load(path: string, loader: Loader<T>) returns (r: Result<T, string>)
      requires Valid()
      modifies this
      ensures Valid()
      ensures r == LoadSpec(old(stored), path, loader).result
      ensures stored == LoadSpec(old(stored), path, loader).after
      ensures loaderCalls == old(loaderCalls) + if path in old(stored) then [] else [path]
    {
      if path in stored {
        var sr := stored[path];
        stored := stored[path := sr.(uses := sr.uses + 1)];
        return Ok(sr.resource);
      }
      var loaded := loader(path);
      loaderCalls := loaderCalls + [path];
      match loaded
      case Err(e) =>
        r := Err(e);
      case Ok(res) =>
        stored := stored[path := Entry(res, 1)];
        r := Ok(res);
    }

    /** `Unload*`. */
    method Unload(path: string)
      requires Valid()
      modifies this
      ensures Valid()
      ensures stored == UnloadSpec(old(stored), path)
      ensures loaderCalls == old(loaderCalls)
    {
      if path in stored {
        var sr := stored[path];
        var uses := sr.uses - 1;
        if uses <= 0 {
          stored := stored - {path};
        } else {
          stored := stored[path := sr.(uses := uses)];
        }
      }
    }
  }

  /**
   * The static class: three independent dictionaries and the renderer used
   * for textures. `Tex`, `Aud`, `Mus` and `Ren` stand for the texture,
   * audio clip, music and renderer objects.
   */
  class ResourceManager<Tex, Aud, Mus, Ren> {
    const textures: ResourceCache<Tex>
    const audio: ResourceCache<Aud>
    const music: ResourceCache<Mus>
    var renderer: Option<Ren>

    ghost predicate Valid()
      reads this, textures, audio, music
    {
      && textures as object != audio as object
      && textures as object != music as object
      && audio as object != music as object
      && textures.Valid() && audio.Valid() && music.Valid()
    }

    constructor ()
      ensures Valid()
      ensures fresh(textures) && fresh(audio) && fresh(music)
      ensures textures.stored == map[] && audio.stored == map[] && music.stored == map[]
      ensures textures.loaderCalls == [] && audio.loaderCalls == [] && music.loaderCalls == []
      ensures renderer == None
    {
      textures := new ResourceCache();
      audio := new ResourceCache();
      music := new ResourceCache();
      renderer := None;
    }

    /** The getter of `AssignedRenderer`, given the renderers registered so far. */
    method AssignedRenderer(registered: seq<Ren>) returns (r: Option<Ren>)
      modifies this`renderer
      ensures renderer == AssignedRendererSpec(old(renderer), registered)
      ensures r == renderer
    {
      if renderer.None? {
        if |registered| > 0 {
          renderer := Some(registered[0]);
        }
      }
      r := renderer;
    }

    /** The setter of `AssignedRenderer`. */
    method SetAssignedRenderer(value: Option<Ren>)
      modifies this`renderer
      ensures renderer == value
    {
      renderer := value;
    }

    method LoadTexture(file: string, loader: Loader<Tex>) returns (r: Result<Tex, string>)
      requires Valid()
      modifies textures
      ensures Valid()
      ensures r == LoadSpec(old(textures.stored), file, loader).result
      ensures textures.stored == LoadSpec(old(textures.stored), file, loader).after
      ensures textures.loaderCalls == old(textures.loaderCalls) + if file in old(textures.stored) then [] else [file]
      ensures unchanged(audio) && unchanged(music)
    {
      r := textures.Load(file, loader);
    }

    method UnloadTexture(file: string)
      requires Valid()
      modifies textures
      ensures Valid()
      ensures textures.stored == UnloadSpec(old(textures.stored), file)
      ensures textures.loaderCalls == old(textures.loaderCalls)
      ensures unchanged(audio) && unchanged(music)
    {
      textures.Unload(file);
    }

    method LoadAudio(file: string, loader: Loader<Aud>) returns (r: Result<Aud, string>)
      requires Valid()
      modifies audio
      ensures Valid()
      ensures r == LoadSpec(old(audio.stored), file, loader).result
      ensures audio.stored == LoadSpec(old(audio.stored), file, loader).after
      ensures audio.loaderCalls == old(audio.loaderCalls) + if file in old(audio.stored) then [] else [file]
      ensures unchanged(textures) && unchanged(music)
    {
      r := audio.Load(file, loader);
    }

    method UnloadAudio(file: string)
      requires Valid()
      modifies audio
      ensures Valid()
      ensures audio.stored == UnloadSpec(old(audio.stored), file)
      ensures audio.loaderCalls == old(audio.loaderCalls)
      ensures unchanged(textures) && unchanged(music)
    {
      audio.Unload(file);
    }

    method LoadMusic(file: string, loader: Loader<Mus>) returns (r: Result<Mus, string>)
      requires Valid()
      modifies music
      ensures Valid()
      ensures r == LoadSpec(old(music.stored), file, loader).result
      ensures music.stored == LoadSpec(old(music.stored), file, loader).after
      ensures music.loaderCalls == old(music.loaderCalls) + if file in old(music.stored) then [] else [file]
      ensures unchanged(textures) && unchanged(audio)
    {
      r := music.Load(file, loader);
    }

    method UnloadMusic(file: string)
      requires Valid()
      modifies music
      ensures Valid()
      ensures music.stored == UnloadSpec(old(music.stored), file)
      ensures music.loaderCalls == old(music.loaderCalls)
      ensures unchanged(textures) && unchanged(audio)
    {
      music.Unload(file);
    }
  }
}
