/**
  The glue of `Movie`: the base folder a movie's resources are resolved
  against, the in-memory reader the engine loads the movie through, and the
  provider that turns an image resource into a cached texture or image.
 */
module Movie {
  import opened Words
  import opened Wrappers
  import opened StringHash
  import opened ResourceManager

  const Backslash: Byte := 0x5C
  const Slash: Byte := 0x2F

  /** `find_last_of` for a single byte: the position of its last occurrence, if any. */
  function FindLastOf(s: Bytes, ch: Byte): (r: Option<nat>)
    ensures r.None? <==> ch !in s
    ensures r.Some? ==> r.value < |s| && s[r.value] == ch && ch !in s[r.value + 1..]
    decreases |s|
  {
    if |s| == 0 then None
    else if s[|s| - 1] == ch then Some(|s| - 1)
    else
      var prev := FindLastOf(s[..|s| - 1], ch);
      assert s == s[..|s| - 1] + [s[|s| - 1]];
      prev
  }

  /**
    The base folder of a movie file: the file name up to and including its
    last backslash; only when there is no backslash at all, up to and
    including its last slash; the empty string when there is neither.
   */
  function BaseFolder(fileName: Bytes): (folder: Bytes)
    ensures folder <= fileName
    ensures Backslash !in fileName && Slash !in fileName ==> folder == []
    ensures Backslash in fileName ==>
              |folder| > 0 && folder[|folder| - 1] == Backslash && Backslash !in fileName[|folder|..]
    ensures Backslash !in fileName && Slash in fileName ==>
              |folder| > 0 && folder[|folder| - 1] == Slash && Slash !in fileName[|folder|..]
  {
    var last := FindLastOf(fileName, Backslash);
    var delimiter := if last.Some? then last else FindLastOf(fileName, Slash);
    if delimiter.Some? then fileName[..delimiter.value + 1] else []
  }

  /** A slash after the last backslash does not count: the backslash wins. */
  lemma BackslashWins(dir: Bytes, rest: Bytes)
    requires Backslash !in rest
    ensures BaseFolder(dir + [Backslash] + rest) == dir + [Backslash]
  {
    var s := dir + [Backslash] + rest;
    assert s[|dir|] == Backslash;
    assert s[|dir| + 1..] == rest;
    var folder := BaseFolder(s);
    assert |folder| == |dir| + 1;
    assert folder == s[..|dir| + 1];
  }

  /** The base folder of a base folder is itself. */
  lemma BaseFolderIdempotent(fileName: Bytes)
    ensures BaseFolder(BaseFolder(fileName)) == BaseFolder(fileName)
  {
    var folder := BaseFolder(fileName);
    if |folder| > 0 {
      var init := folder[..|folder| - 1];
      assert folder == init + [folder[|folder| - 1]];
      if Backslash in fileName {
        assert BaseFolder(init + [Backslash] + []) == folder;
      } else {
        assert Backslash !in folder;
        var f2 := BaseFolder(folder);
        assert |f2| == |folder|;
      }
    }
  }

  // ---------------------------------------------------------------------------
  // Reading the movie from memory
  // ---------------------------------------------------------------------------

  /** The reader state the engine passes back to the read callback. */
  datatype MemoryIO = MemoryIO(data: Bytes, cursor: nat)

  /** What one read yields: the new reader state, the count returned and the bytes copied. */
  datatype ReadResult = ReadResult(io: Option<MemoryIO>, count: nat, bytes: Bytes)

  /**
    `my_io_read`: copies as many of the requested bytes as remain after the
    cursor, advances the cursor by that many and returns the count. A missing
    reader, or one already at or past the end, reads nothing.
   */
  function IoRead(io: Option<MemoryIO>, size: nat): (r: ReadResult)
    ensures |r.bytes| == r.count && r.count <= size
    ensures r.io.Some? <==> io.Some?
    ensures io.Some? && io.value.cursor <= |io.value.data| ==> r.io.value.cursor <= |io.value.data|
    ensures io.None? || io.value.cursor >= |io.value.data| ==> r.count == 0 && r.io == io
    ensures io.Some? && io.value.cursor < |io.value.data| ==>
              var data, cursor := io.value.data, io.value.cursor;
              && (r.count == size || r.count == |data| - cursor)
              && r.count <= |data| - cursor
              && r.bytes == data[cursor..cursor + r.count]
              && r.io == Some(MemoryIO(data, cursor + r.count))
  {
    if io.Some? && io.value.cursor < |io.value.data| then
      var available := |io.value.data| - io.value.cursor;
      var toRead := if size > available then available else size;
      ReadResult(Some(io.value.(cursor := io.value.cursor + toRead)),
                 toRead,
                 io.value.data[io.value.cursor..io.value.cursor + toRead])
    else
      ReadResult(io, 0, [])
  }

  /** Reading `n` bytes and then `m` more yields what reading `n + m` at once does. */
  lemma ReadsConcatenate(io: MemoryIO, n: nat, m: nat)
    requires io.cursor <= |io.data|
    ensures var first := IoRead(Some(io), n);
            var second := IoRead(first.io, m);
            var both := IoRead(Some(io), n + m);
            && second.io == both.io
            && first.count + second.count == both.count
            && first.bytes + second.bytes == both.bytes
  {
    var first := IoRead(Some(io), n);
    if io.cursor < |io.data| && first.io.value.cursor < |io.data| {
      var second := IoRead(first.io, m);
      assert io.data[io.cursor..io.cursor + first.count] + io.data[io.cursor + first.count..io.cursor + first.count + second.count]
          == io.data[io.cursor..io.cursor + first.count + second.count];
    }
  }

  /** Reading a whole movie in chunks: a short read means the cursor reached the end. */
  lemma ShortReadMeansEnd(io: MemoryIO, size: nat)
    requires io.cursor <= |io.data|
    ensures var r := IoRead(Some(io), size);
            r.count < size ==> r.io.value.cursor == |io.data|
  {
  }

  // ---------------------------------------------------------------------------
  // Providing image resources
  // ---------------------------------------------------------------------------

  /** An image resource as the movie describes it: its name, its file, and the atlas it lives in, if any. */
  datatype ImageDesc = ImageDesc(name: Bytes, path: Bytes, atlasPath: Option<Bytes>)

  /** What the provider stores as the resource's data: a texture (possibly none) or an image. */
  datatype ResourceHandle = TextureHandle(tex: Option<Texture>) | ImageHandle(img: Image)

  /**
    The image branch of `OnProvideResource`. A stand-alone image is the
    texture of its file, resolved against the base folder. An atlas image is
    the image cached under its name, whose texture becomes the atlas file's
    texture; when that image lives in the cache, the cached entry carries the
    texture from then on. The white texture never changes, and no entry is
    replaced except the named image's.
   */
  function ProvideImageResource(cache: ResourceCache, baseFolder: Bytes, desc: ImageDesc, decode: Decoder,
                                name: TextureName): (r: (ResourceCache, ResourceHandle))
    ensures r.0.white == cache.white
    ensures cache.table.Keys <= r.0.table.Keys
    ensures desc.atlasPath.None? ==>
              var h := Hash(baseFolder + desc.path);
              && r.1.TextureHandle?
              && (h in cache.table && cache.table[h].TextureResource? ==> r == (cache, TextureHandle(Some(cache.table[h].tex))))
              && (!(h in cache.table && cache.table[h].TextureResource?) && decode(baseFolder + desc.path).None? ==>
                    r == (cache, TextureHandle(None)))
    ensures desc.atlasPath.None? ==>
              var loaded := GetTextureRes(cache, baseFolder + desc.path, decode, name);
              r == (loaded.0, TextureHandle(loaded.1))
    ensures desc.atlasPath.Some? ==>
              var p := ProvideAtlasImage(cache, desc.name, baseFolder + desc.atlasPath.value, decode, name);
              r == (p.0, ImageHandle(p.1))
    ensures desc.atlasPath.Some? ==>
              var h := Hash(desc.name);
              var tex := GetTextureRes(GetImageRes(cache, desc.name).0, baseFolder + desc.atlasPath.value, decode, name).1;
              && r.1.ImageHandle?
              && r.1.img.textureRes == tex
              && r.1.img.premultAlpha == (if h in cache.table && cache.table[h].ImageResource? then cache.table[h].img.premultAlpha else true)
              && h in r.0.table
              && (!(h in cache.table && cache.table[h].TextureResource?) ==> r.0.table[h] == ImageResource(r.1.img))
              && (h in cache.table && cache.table[h].TextureResource? ==> r.0.table[h] == cache.table[h])
    ensures forall k :: k in cache.table && k != Hash(desc.name) ==> r.0.table[k] == cache.table[k]
  {
    match desc.atlasPath
    case None =>
      var loaded := GetTextureRes(cache, baseFolder + desc.path, decode, name);
      (loaded.0, TextureHandle(loaded.1))
    case Some(atlasPath) =>
      var p := ProvideAtlasImage(cache, desc.name, baseFolder + atlasPath, decode, name);
      (p.0, ImageHandle(p.1))
  }

  /**
    The atlas case of `ProvideImageResource`: look the image up by name,
    give it the atlas file's texture, and store it back if it is the cached one.
   */
  function ProvideAtlasImage(cache: ResourceCache, imageName: Bytes, texturePath: Bytes, decode: Decoder,
                             name: TextureName): (r: (ResourceCache, Image))
    ensures r.0.white == cache.white
    ensures cache.table.Keys + {Hash(imageName)} <= r.0.table.Keys
    ensures var loaded := GetTextureRes(GetImageRes(cache, imageName).0, texturePath, decode, name);
            && r.0.table.Keys == loaded.0.table.Keys
            && forall k :: k in loaded.0.table && k != Hash(imageName) ==> r.0.table[k] == loaded.0.table[k]
    ensures var h := Hash(imageName);
            var tex := GetTextureRes(GetImageRes(cache, imageName).0, texturePath, decode, name).1;
            && r.1.textureRes == tex
            && r.1.premultAlpha == (if h in cache.table && cache.table[h].ImageResource? then cache.table[h].img.premultAlpha else true)
            && (!(h in cache.table && cache.table[h].TextureResource?) ==> r.0.table[h] == ImageResource(r.1))
            && (h in cache.table && cache.table[h].TextureResource? ==> r.0.table[h] == cache.table[h])
    ensures forall k :: k in cache.table && k != Hash(imageName) ==> r.0.table[k] == cache.table[k]
  {
    var h := Hash(imageName);
    var named := GetImageRes(cache, imageName);
    assert cache.table.Keys + {h} <= named.0.table.Keys;
    assert forall k :: k in cache.table ==> named.0.table[k] == cache.table[k];
    var loaded := GetTextureRes(named.0, texturePath, decode, name);
    assert named.0.table.Keys <= loaded.0.table.Keys;
    var image := named.1.(textureRes := loaded.1);
    var cached := h in named.0.table && named.0.table[h].ImageResource?;
    var table := if cached then loaded.0.table[h := ImageResource(image)] else loaded.0.table;
    (loaded.0.(table := table), image)
  }

  /**
    An atlas image that is not shadowed by a texture under its name draws
    with the atlas texture: looking its name up afterwards returns the image
    with that texture, and the renderer binds that texture's GL name.
   */
  lemma AtlasImageBindsTexture(cache: ResourceCache, baseFolder: Bytes, name: Bytes, path: Bytes, atlasPath: Bytes,
                               decode: Decoder, glName: TextureName)
    requires var h := Hash(name);
             !(h in cache.table && cache.table[h].TextureResource?)
    requires var h := Hash(baseFolder + atlasPath);
             h !in cache.table && h != Hash(name)
    requires decode(baseFolder + atlasPath).Some?
    ensures var r := ProvideImageResource(cache, baseFolder, ImageDesc(name, path, Some(atlasPath)), decode, glName);
            && GetImageRes(r.0, name) == (r.0, r.1.img)
            && r.1.img.textureRes.Some?
            && r.1.img.textureRes.value.texture == glName
            && r.0.table[Hash(baseFolder + atlasPath)] == TextureResource(r.1.img.textureRes.value)
  {
  }

  /** Providing the same atlas image twice decodes the atlas once: the second call finds its texture cached. */
  lemma AtlasProvidedTwice(cache: ResourceCache, baseFolder: Bytes, desc: ImageDesc, decode: Decoder,
                           glName: TextureName, decode2: Decoder, glName2: TextureName)
    requires desc.atlasPath.Some?
    requires var h := Hash(desc.name);
             !(h in cache.table && cache.table[h].TextureResource?)
    requires var h := Hash(baseFolder + desc.atlasPath.value);
             h !in cache.table && h != Hash(desc.name)
    requires decode(baseFolder + desc.atlasPath.value).Some?
    ensures var first := ProvideImageResource(cache, baseFolder, desc, decode, glName);
            ProvideImageResource(first.0, baseFolder, desc, decode2, glName2) == first
  {
    AtlasImageBindsTexture(cache, baseFolder, desc.name, desc.path, desc.atlasPath.value, decode, glName);
    var first := ProvideImageResource(cache, baseFolder, desc, decode, glName);
    var texturePath := baseFolder + desc.atlasPath.value;
    var h := Hash(desc.name);
    var named := GetImageRes(first.0, desc.name);
    assert named == (first.0, first.1.img);
    var loaded := GetTextureRes(named.0, texturePath, decode2, glName2);
    assert loaded == (first.0, first.1.img.textureRes);
    assert first.0.table[h := ImageResource(first.1.img)] == first.0.table;
  }
}
