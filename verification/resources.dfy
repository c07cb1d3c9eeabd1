/**
  The resource manager: a process-wide table from a name's hash to a decoded
  resource, either a GPU texture or a named image wrapper that refers to one,
  plus the 1x1 white texture the renderer falls back on.
 */
module ResourceManager {
  import opened Words
  import opened Wrappers
  import opened StringHash

  // Resource type tags: the content kinds 0..6 and the system kind Texture.
  const TagSolid: nat := 0
  const TagVideo: nat := 1
  const TagSound: nat := 2
  const TagImage: nat := 3
  const TagSequence: nat := 4
  const TagParticle: nat := 5
  const TagSlot: nat := 6
  const TagTexture: nat := 1000

  /** The texture pixel layouts, with the codes R8 = 0 up to R8G8B8A8 = 3. */
  datatype PixelFormat = R8 | R8G8 | R8G8B8 | R8G8B8A8 {
    function Code(): nat {
      match this
      case R8 => 0
      case R8G8 => 1
      case R8G8B8 => 2
      case R8G8B8A8 => 3
    }
  }

  /** The component count the image decoder reports: 1 to 4 bytes per pixel. */
  type Components = n: int | 1 <= n <= 4 witness 1

  /** The texture format chosen for a decoded component count. */
  function FormatForComponents(comp: Components): (f: PixelFormat)
    ensures f.Code() == comp - 1
  {
    match comp
    case 1 => R8
    case 2 => R8G8
    case 3 => R8G8B8
    case 4 => R8G8B8A8
  }

  /** A texture name as `glGenTextures` hands it out: never 0. */
  type TextureName = n: nat | n > 0 witness 1

  /** `ResourceTexture`: the decoded size, the pixel format and the GL texture name. */
  datatype Texture = Texture(width: nat, height: nat, format: PixelFormat, texture: nat)

  /** `ResourceImage`: an optional texture and whether its pixels are premultiplied. */
  datatype Image = Image(textureRes: Option<Texture>, premultAlpha: bool)

  /** What the `ResourceImage` constructor makes: no texture yet, premultiplied alpha. */
  const NewImage: Image := Image(None, true)

  /** An entry of the resource table, tagged by its kind. */
  datatype Resource = TextureResource(tex: Texture) | ImageResource(img: Image) {

    /**
      The `type` field. A texture entry carries the system tag 1000, which no
      content kind uses, so a texture can never pass the image tag test and
      an image never the texture one.
     */
    function Tag(): (tag: nat)
      ensures tag == TagTexture <==> TextureResource?
      ensures tag == TagImage <==> ImageResource?
      ensures TextureResource? ==> tag > TagSlot
    {
      match this
      case TextureResource(_) => TagTexture
      case ImageResource(_) => TagImage
    }
  }

  /** What the image decoder returns for a file it can read. */
  datatype Decoded = Decoded(width: nat, height: nat, comp: Components)

  /** The image decoder: the file's pixels, or nothing if the file is missing or corrupt. */
  type Decoder = Bytes -> Option<Decoded>

  /** The manager's state: the white texture name (0 while there is none) and the table. */
  datatype ResourceCache = ResourceCache(white: nat, table: map<U64, Resource>)

  /** The freshly constructed manager. */
  const EmptyCache: ResourceCache := ResourceCache(0, map[])

  /**
    `unordered_map::insert`: adds `key` if it is absent and never replaces
    the entry of a key that is already present.
   */
  function Insert(table: map<U64, Resource>, key: U64, r: Resource): (t: map<U64, Resource>)
    ensures t.Keys == table.Keys + {key}
    ensures forall k :: k in table ==> t[k] == table[k]
    ensures key !in table ==> t[key] == r
  {
    if key in table then table else table[key := r]
  }

  /** `GetWhiteTexture`. */
  function GetWhiteTexture(cache: ResourceCache): nat {
    cache.white
  }

  /**
    `Initialize`: creates the white texture, under the name `glGenTextures`
    gives, only if there is none yet; so a second call changes nothing.
   */
  function Initialize(cache: ResourceCache, name: TextureName): (r: ResourceCache)
    ensures GetWhiteTexture(r) != 0
    ensures cache.white != 0 ==> r == cache
    ensures cache.white == 0 ==> r.white == name
    ensures r.table == cache.table
  {
    if cache.white == 0 then cache.(white := name) else cache
  }

  /** Initializing twice is initializing once. */
  lemma InitializeIdempotent(cache: ResourceCache, first: TextureName, second: TextureName)
    ensures Initialize(Initialize(cache, first), second) == Initialize(cache, first)
  {
  }

  /**
    The white texture over the manager's life: none in a new manager, one
    after `Initialize` that a second `Initialize` keeps, released by
    `Shutdown`, and none afterwards.
   */
  lemma WhiteTextureLifecycle(first: TextureName, second: TextureName)
    ensures GetWhiteTexture(EmptyCache) == 0
    ensures var init := Initialize(EmptyCache, first);
            && GetWhiteTexture(init) == first
            && GetWhiteTexture(Initialize(init, second)) == first
            && first in Shutdown(init).1
            && GetWhiteTexture(Shutdown(init).0) == 0
  {
  }

  /** The GL texture names `Shutdown` deletes. */
  function ReleasedTextures(cache: ResourceCache): set<nat> {
    (if cache.white != 0 then {cache.white} else {})
      + set k | k in cache.table && cache.table[k].TextureResource? :: cache.table[k].tex.texture
  }

  /**
    `Shutdown`: deletes the white texture if there is one and every cached
    texture (and nothing else), then leaves no white texture and an empty
    table. It is total, so it is safe on a manager that never loaded anything.
   */
  function Shutdown(cache: ResourceCache): (r: (ResourceCache, set<nat>))
    ensures r.0.white == 0 && r.0.table == map[]
    ensures cache.white != 0 ==> cache.white in r.1
    ensures forall k :: k in cache.table && cache.table[k].Tag() == TagTexture ==> cache.table[k].tex.texture in r.1
    ensures forall n :: n in r.1 ==>
              (n == cache.white && n != 0)
              || exists k :: k in cache.table && cache.table[k].TextureResource? && cache.table[k].tex.texture == n
  {
    (EmptyCache, ReleasedTextures(cache))
  }

  /**
    `LoadTextureRes`: decodes the file and, if that succeeds, makes a texture
    of the decoded size in the format matching the component count, under
    the GL name `name`, and inserts it under the file name's hash (never
    replacing an entry already there). A failed decode returns no texture and
    leaves the manager as it was.
   */
  function LoadTextureRes(cache: ResourceCache, fileName: Bytes, decode: Decoder, name: TextureName)
    : (r: (ResourceCache, Option<Texture>))
    ensures decode(fileName).None? ==> r == (cache, None)
    ensures decode(fileName).Some? ==>
              var d := decode(fileName).value;
              && r.1.Some?
              && r.1.value.width == d.width && r.1.value.height == d.height
              && r.1.value.format.Code() == d.comp - 1
              && r.1.value.texture == name
              && r.0.table.Keys == cache.table.Keys + {Hash(fileName)}
              && (Hash(fileName) !in cache.table ==> r.0.table[Hash(fileName)] == TextureResource(r.1.value))
    ensures r.0.white == cache.white
    ensures forall k :: k in cache.table ==> k in r.0.table && r.0.table[k] == cache.table[k]
  {
    match decode(fileName)
    case None => (cache, None)
    case Some(d) =>
      var texture := Texture(d.width, d.height, FormatForComponents(d.comp), name);
      (cache.(table := Insert(cache.table, Hash(fileName), TextureResource(texture))), Some(texture))
  }

  /**
    `GetTextureRes`: a texture cached under the file name's hash is returned
    as it is, without decoding and without touching the manager; on a miss,
    or when the entry there is not a texture, the file is loaded.
   */
  function GetTextureRes(cache: ResourceCache, fileName: Bytes, decode: Decoder, name: TextureName)
    : (r: (ResourceCache, Option<Texture>))
    ensures var h := Hash(fileName);
            h in cache.table && cache.table[h].Tag() == TagTexture ==> r == (cache, Some(cache.table[h].tex))
    ensures var h := Hash(fileName);
            !(h in cache.table && cache.table[h].Tag() == TagTexture) ==> r == LoadTextureRes(cache, fileName, decode, name)
    ensures r.0.white == cache.white
    ensures forall k :: k in cache.table ==> k in r.0.table && r.0.table[k] == cache.table[k]
  {
    var h := Hash(fileName);
    if h in cache.table && cache.table[h].Tag() == TagTexture then
      (cache, Some(cache.table[h].tex))
    else
      LoadTextureRes(cache, fileName, decode, name)
  }

  /**
    `GetImageRes`: the image cached under the name's hash if the entry there
    is an image; otherwise a new image without texture and with premultiplied
    alpha, inserted under the hash if that key is free. When the key holds a
    texture, the new image is returned but not cached.
   */
  function GetImageRes(cache: ResourceCache, imageName: Bytes): (r: (ResourceCache, Image))
    ensures var h := Hash(imageName);
            h in cache.table && cache.table[h].Tag() == TagImage ==> r == (cache, cache.table[h].img)
    ensures var h := Hash(imageName);
            h !in cache.table ==> r.1 == Image(None, true) && r.0.table == cache.table[h := ImageResource(r.1)]
    ensures var h := Hash(imageName);
            h in cache.table && cache.table[h].Tag() != TagImage ==> r.0 == cache && r.1.textureRes.None? && r.1.premultAlpha
    ensures r.0.white == cache.white
  {
    var h := Hash(imageName);
    if h in cache.table && cache.table[h].Tag() == TagImage then
      (cache, cache.table[h].img)
    else
      (cache.(table := Insert(cache.table, h, ImageResource(NewImage))), NewImage)
  }

  /**
    A texture, once loaded under a free key, is what every later lookup of
    the same file name returns, whatever the decoder would now say: the file
    is decoded once.
   */
  lemma GetTextureResCaches(cache: ResourceCache, fileName: Bytes, decode: Decoder, name: TextureName,
                            decode2: Decoder, name2: TextureName)
    requires Hash(fileName) !in cache.table
    requires decode(fileName).Some?
    ensures var first := GetTextureRes(cache, fileName, decode, name);
            GetTextureRes(first.0, fileName, decode2, name2) == first
  {
  }

  /**
    Two file names with the same hash share one entry: after the first is
    loaded, a lookup of the second returns the first one's texture.
   */
  lemma HashCollisionIsAHit(cache: ResourceCache, fileName: Bytes, other: Bytes, decode: Decoder, name: TextureName,
                            name2: TextureName)
    requires Hash(fileName) !in cache.table && Hash(other) == Hash(fileName)
    requires decode(fileName).Some?
    ensures var first := GetTextureRes(cache, fileName, decode, name);
            GetTextureRes(first.0, other, decode, name2) == first
  {
  }

  /** Looking an image up a second time returns the same image and changes nothing more. */
  lemma GetImageResStable(cache: ResourceCache, imageName: Bytes)
    ensures var first := GetImageRes(cache, imageName);
            GetImageRes(first.0, imageName) == first
  {
  }
}
