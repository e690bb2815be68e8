/**
 * The texture cache: images loaded from disk are memoised by path, so each
 * path is loaded at most once. Loading itself is an abstract function that
 * may fail with an error message.
 */
module Resources {
  import opened Ecs

  type Path = seq<char>

  /** A loaded texture, identified by its graphics handle. */
  datatype Image = Image(handle: nat)

  /** What the image loader gives back for a path. */
  datatype LoadResult = Loaded(image: Image) | LoadError(message: string)

  /** load_or_get_texture's result: the cached image, or the loader's error. */
  datatype TextureResult = Ok(texture: Option<Image>) | Err(message: string)

  /**
   * The cache and the error after load_texture: a cached path is left alone
   * without loading; otherwise the loader runs and only a success is
   * stored.
   */
  function AfterLoad(textures: map<Path, Image>, load: Path -> LoadResult, path: Path): (r: (map<Path, Image>, Option<string>))
    ensures r.1.None? <==> path in textures || load(path).Loaded?
    ensures r.1.Some? ==> r.0 == textures && r.1.value == load(path).message
    ensures r.1.None? ==> r.0.Keys == textures.Keys + {path}
    ensures forall k :: k in textures ==> k in r.0 && r.0[k] == textures[k]
    ensures path !in textures && r.1.None? ==> r.0[path] == load(path).image
  {
    if path in textures then (textures, None)
    else match load(path)
      case Loaded(image) => (textures[path := image], None)
      case LoadError(message) => (textures, Some(message))
  }

  class ResourcesManager {
    var textures: map<Path, Image>

    /** ResourcesManager::default: nothing cached. */
    constructor ()
      ensures textures == map[]
    {
      textures := map[];
    }

    /** load_texture: `err` is the loader's error, when the loader ran and failed. */
    method LoadTexture(load: Path -> LoadResult, path: Path) returns (err: Option<string>)
      modifies this`textures
      ensures (textures, err) == AfterLoad(old(textures), load, path)
    {
      err := None;
      if path !in textures {
        var result := load(path);
        if result.LoadError? {
          return Some(result.message);
        }
        textures := textures[path := result.image];
      }
    }

    /** get_texture: a plain lookup. */
    function GetTexture(path: Path): (r: Option<Image>)
      reads this
      ensures r.Some? <==> path in textures
      ensures r.Some? ==> r.value == textures[path]
    {
      if path in textures then Some(textures[path]) else None
    }

    /** load_or_get_texture: loads when needed, then looks the path up. */
    method LoadOrGetTexture(load: Path -> LoadResult, path: Path) returns (r: TextureResult)
      modifies this`textures
      ensures var (cache, err) := AfterLoad(old(textures), load, path);
        textures == cache && (err.Some? ==> r == Err(err.value))
      ensures r.Ok? <==> AfterLoad(old(textures), load, path).1.None?
      ensures r.Ok? ==> path in textures && r == Ok(Some(textures[path]))
    {
      var err := LoadTexture(load, path);
      if err.Some? {
        return Err(err.value);
      }
      r := Ok(GetTexture(path));
    }
  }

  // ---------------------------------------------------------------------
  // Properties of the cache
  // ---------------------------------------------------------------------

  /** Loading a path a second time changes nothing and never reaches the loader. */
  lemma LoadIdempotent(textures: map<Path, Image>, load: Path -> LoadResult, other: Path -> LoadResult, path: Path)
    requires AfterLoad(textures, load, path).1.None?
    ensures var once := AfterLoad(textures, load, path).0;
      AfterLoad(once, other, path) == (once, None)
  {
  }

  /** Once cached, a path keeps its first image whatever is loaded afterwards. */
  lemma {:induction false} CachedImageIsStable(textures: map<Path, Image>, load: Path -> LoadResult, paths: seq<Path>, path: Path)
    requires path in textures
    ensures var r := LoadAll(textures, load, paths); path in r && r[path] == textures[path]
    decreases |paths|
  {
    if paths != [] {
      CachedImageIsStable(AfterLoad(textures, load, paths[0]).0, load, paths[1..], path);
    }
  }

  /** The cache after loading `paths` one after the other. */
  function LoadAll(textures: map<Path, Image>, load: Path -> LoadResult, paths: seq<Path>): map<Path, Image>
    decreases |paths|
  {
    if paths == [] then textures else LoadAll(AfterLoad(textures, load, paths[0]).0, load, paths[1..])
  }
}
