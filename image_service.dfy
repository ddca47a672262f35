/** Uploading, looking up, describing, deleting and rescaling stored images.
    An upload's name decides whether its format is accepted; the stored name
    prefixes a random UUID, and the returned URL points at the image endpoint. */
module ImageService {
  import opened Common
  import opened Images
  import opened Database

  const AllowedExtensions := ["jpg", "jpeg", "png"]
  const UnsupportedFormatMessage := "Formato da imagem enviada não suportado."
  const IoErrorMessage := "I/O Exception Error"
  const OutOfMemoryMessage := "Out of Memory Error"
  const ImageNotFoundMessage := "Não existe nenhuma imagem com o Nome informado."

  /** What reading the uploaded file part yields: its bytes, an IOException or
      an OutOfMemoryError. */
  datatype Upload = Bytes(data: seq<byte>) | ReadError | OutOfMemory

  /** A multipart body: the file part and its name, each possibly absent. */
  datatype MultipartBody = MultipartBody(image: Option<Upload>, imageName: Option<string>)

  /** The projection returned by getImageInfoByName. */
  datatype ImageInfo = ImageInfo(id: Option<string>, name: string, createdAt: Option<int>, updatedAt: Option<int>)

  /** String.lastIndexOf(c): the last position holding c, or -1. */
  function LastIndexOf(s: string, c: char): (i: int)
    ensures -1 <= i < |s|
    ensures i >= 0 ==> s[i] == c
    ensures forall j :: i < j < |s| ==> s[j] != c
  {
    if |s| == 0 then -1
    else if s[|s| - 1] == c then |s| - 1
    else LastIndexOf(s[..|s| - 1], c)
  }

  /** String.toLowerCase on the ASCII letters. */
  function LowerChar(c: char): char
  {
    if 'A' <= c <= 'Z' then (c as int + 32) as char else c
  }

  function ToLower(s: string): (r: string)
    ensures |r| == |s|
  {
    seq(|s|, i requires 0 <= i < |s| => LowerChar(s[i]))
  }

  /** The format is checked only when the last '.' has text on both sides. */
  predicate ExtensionChecked(name: string)
  {
    0 < LastIndexOf(name, '.') < |name| - 1
  }

  /** The accepted formats: names whose extension is not checked, and names
      whose extension, lower-cased, is jpg, jpeg or png. */
  predicate FormatAccepted(name: string)
  {
    !ExtensionChecked(name) || ToLower(name[LastIndexOf(name, '.') + 1..]) in AllowedExtensions
  }

  /** What save(body) decides: the bytes to store, or why it refuses. The
      name is read first (null: NullPointerException), then its format (400),
      then the file part (null: NullPointerException; read failures: 500). */
  function SaveOutcome(body: MultipartBody): (r: Result<seq<byte>>)
    ensures body.imageName.None? ==> r == Err(Unchecked(NullPointer))
    ensures body.imageName.Some? && !FormatAccepted(body.imageName.value)
      ==> r == Err(Api(400, UnsupportedFormatMessage))
    ensures body.imageName.Some? && FormatAccepted(body.imageName.value) && body.image.None?
      ==> r == Err(Unchecked(NullPointer))
    ensures body.imageName.Some? && FormatAccepted(body.imageName.value) && body.image == Some(ReadError)
      ==> r == Err(Api(500, IoErrorMessage))
    ensures body.imageName.Some? && FormatAccepted(body.imageName.value) && body.image == Some(OutOfMemory)
      ==> r == Err(Api(500, OutOfMemoryMessage))
    ensures r.Ok? <==>
      (body.imageName.Some? && FormatAccepted(body.imageName.value) && body.image.Some? && body.image.value.Bytes?)
    ensures r.Ok? ==> r.value == body.image.value.data
  {
    if body.imageName.None? then Err(Unchecked(NullPointer))
    else if !FormatAccepted(body.imageName.value) then Err(Api(400, UnsupportedFormatMessage))
    else match body.image
      case None => Err(Unchecked(NullPointer))
      case Some(ReadError) => Err(Api(500, IoErrorMessage))
      case Some(OutOfMemory) => Err(Api(500, OutOfMemoryMessage))
      case Some(Bytes(data)) => Ok(data)
  }

  /** The stored name: a UUID, a dash and the uploaded name. */
  function StoredName(uuid: string, imageName: string): (name: string)
    ensures |name| == |uuid| + 1 + |imageName|
    ensures name[..|uuid|] == uuid && name[|uuid|] == '-' && name[|uuid| + 1..] == imageName
  {
    uuid + "-" + imageName
  }

  /** The URL under which a stored image is served. */
  function ImageUrl(baseUrl: string, storedName: string): string
  {
    baseUrl + "/images/" + storedName
  }

  /** save(body): stores the upload as a new image and returns its URL. The
      random UUID, the generated id and the timestamp are inputs. */
  method Save(db: Store, body: MultipartBody, uuid: string, imageId: string, now: int, baseUrl: string)
    returns (r: Result<string>)
    modifies db`images
    ensures var outcome := SaveOutcome(body);
      && (outcome.Err? ==> r == Err(outcome.failure) && db.images == old(db.images))
      && (outcome.Ok? ==>
            && r == Ok(ImageUrl(baseUrl, StoredName(uuid, body.imageName.value)))
            && |db.images| == |old(db.images)| + 1
            && db.images[..|old(db.images)|] == old(db.images)
            && fresh(db.images[|old(db.images)|])
            && db.images[|old(db.images)|].name == StoredName(uuid, body.imageName.value)
            && db.images[|old(db.images)|].data == outcome.value
            && db.images[|old(db.images)|].id == Some(imageId))
  {
    var outcome := SaveOutcome(body);
    if outcome.Err? {
      return Err(outcome.failure);
    }
    var name := StoredName(uuid, body.imageName.value);
    var image := new Image(Some(imageId), outcome.value, name, Some(now), Some(now));
    db.images := db.images + [image];
    r := Ok(ImageUrl(baseUrl, name));
  }

  /** findByName: the first image with that name. */
  function FindImage(images: seq<Image>, name: string): (r: Option<nat>)
    ensures r.Some? ==> r.value < |images| && images[r.value].name == name
    ensures r.Some? ==> forall j :: 0 <= j < r.value ==> images[j].name != name
    ensures r.None? <==> forall j :: 0 <= j < |images| ==> images[j].name != name
  {
    FirstWhere(images, (x: Image) => x.name == name)
  }

  /** deleteImageByName: 404 for an unknown name, otherwise the first image of
      that name is removed and the others stay, in order. */
  method DeleteImageByName(db: Store, name: string) returns (r: Result<()>)
    modifies db`images
    ensures FindImage(old(db.images), name).None? ==>
      r == Err(Api(404, ImageNotFoundMessage)) && db.images == old(db.images)
    ensures FindImage(old(db.images), name).Some? ==>
      r == Ok(()) && db.images == RemoveAt(old(db.images), FindImage(old(db.images), name).value)
  {
    var found := FindImage(db.images, name);
    if found.None? {
      return Err(Api(404, ImageNotFoundMessage));
    }
    db.images := RemoveAt(db.images, found.value);
    r := Ok(());
  }

  /** getImageInfoByName: the id, name and timestamps of the first image of
      that name, or 404. */
  function GetImageInfoByName(images: seq<Image>, name: string): (r: Result<ImageInfo>)
    ensures r.Err? <==> forall x :: x in images ==> x.name != name
    ensures r.Err? ==> r.failure == Api(404, ImageNotFoundMessage)
    ensures r.Ok? ==>
      exists x :: (x in images && x.name == name && r.value == ImageInfo(x.id, x.name, x.createdAt, x.updatedAt))
  {
    match FindImage(images, name)
    case None => Err(Api(404, ImageNotFoundMessage))
    case Some(i) =>
      var x := images[i];
      Ok(ImageInfo(x.id, x.name, x.createdAt, x.updatedAt))
  }

  /** getImageByName: the stored image of that name, otherwise a new default
      image built from the bundled asset (null when the asset cannot be read). */
  method GetImageByName(db: Store, name: string, asset: Option<seq<byte>>) returns (img: Image?)
    ensures FindImage(db.images, name).Some? ==> img == db.images[FindImage(db.images, name).value]
    ensures FindImage(db.images, name).None? ==>
      && (img == null <==> asset.None?)
      && (img != null ==> fresh(img) && img.name == DefaultImageName && img.data == asset.value && img.id.None?)
  {
    var found := FindImage(db.images, name);
    if found.Some? {
      return db.images[found.value];
    }
    img := DefaultImage(asset);
  }

  /** getImageByNameAndScale: looks the image up and rescales that very object,
      so a stored image's bytes are overwritten in place; the object itself is
      returned. An exception from scale propagates; a missing default image is
      a null dereference. */
  method GetImageByNameAndScale(db: Store, name: string, w: int, h: int, asset: Option<seq<byte>>, codec: Codec)
    returns (r: Result<Image>)
    modifies db.images
    ensures var found := FindImage(db.images, name);
      found.Some? ==>
        var img := db.images[found.value];
        && (r.Ok? <==> Scaled(old(img.data), w, h, codec).Ok?)
        && (r.Ok? ==> r.value == img && img.data == Scaled(old(img.data), w, h, codec).value)
        && (r.Err? ==> r.failure == Scaled(old(img.data), w, h, codec).failure && img.data == old(img.data))
    ensures FindImage(db.images, name).None? && asset.None? ==> r == Err(Unchecked(NullPointer))
    ensures FindImage(db.images, name).None? && asset.Some? ==>
      && (r.Ok? <==> Scaled(asset.value, w, h, codec).Ok?)
      && (r.Ok? ==>
            (fresh(r.value) && r.value.name == DefaultImageName && r.value.data == Scaled(asset.value, w, h, codec).value))
      && (r.Err? ==> r.failure == Scaled(asset.value, w, h, codec).failure)
    ensures forall j :: 0 <= j < |db.images| && (r.Err? || db.images[j] != r.value) ==>
      db.images[j].data == old(db.images[j].data)
  {
    var img := GetImageByName(db, name, asset);
    if img == null {
      return Err(Unchecked(NullPointer));
    }
    var scaled := img.Scale(w, h, codec);
    if scaled.Err? {
      return Err(scaled.failure);
    }
    r := Ok(img);
  }

  /** Names without a '.' between two other characters are stored whatever
      their format. */
  lemma UncheckedNames(name: string)
    requires forall j :: 0 < j < |name| - 1 ==> name[j] != '.'
    ensures FormatAccepted(name)
  {
  }

  /** base.ext, with a non-empty base and an extension free of dots, is stored
      exactly when the lower-cased extension is jpg, jpeg or png. */
  lemma ExtensionRule(base: string, ext: string)
    requires |base| > 0 && |ext| > 0
    requires forall j :: 0 <= j < |ext| ==> ext[j] != '.'
    ensures FormatAccepted(base + "." + ext) <==> ToLower(ext) in AllowedExtensions
  {
    var name := base + "." + ext;
    var i := LastIndexOf(name, '.');
    assert name[|base|] == '.';
    assert forall j :: |base| < j < |name| ==> name[j] == ext[j - |base| - 1];
    assert i == |base|;
    assert name[i + 1..] == ext;
  }

  /** Upper-case extensions are accepted, and so is the last of several. */
  lemma AcceptedExamples()
    ensures FormatAccepted("foto.JPG") && FormatAccepted("a.b.png")
  {
    assert ToLower("JPG") == "jpg";
    LastDotAt("foto.JPG", 4);
    assert "foto.JPG"[5..] == "JPG";
    assert ToLower("png") == "png";
    LastDotAt("a.b.png", 3);
    assert "a.b.png"[4..] == "png";
  }

  /** Other formats are refused, also behind an accepted one. */
  lemma RefusedExamples()
    ensures !FormatAccepted("foto.gif") && !FormatAccepted("foto.png.gif")
  {
    var lower := ToLower("gif");
    assert lower == "gif";
    LastDotAt("foto.gif", 4);
    assert "foto.gif"[5..] == "gif";
    LastDotAt("foto.png.gif", 8);
    assert "foto.png.gif"[9..] == "gif";
  }

  /** The last '.' is at k when no later character is one. */
  lemma LastDotAt(name: string, k: nat)
    requires k < |name| && name[k] == '.'
    requires forall j :: k < j < |name| ==> name[j] != '.'
    ensures LastIndexOf(name, '.') == k
  {
  }

  /** A leading or trailing dot, or none, skips the check. */
  lemma UncheckedExamples()
    ensures FormatAccepted(".gif") && FormatAccepted("gif.") && FormatAccepted("foto")
  {
    LastDotAt(".gif", 0);
    LastDotAt("gif.", 3);
    assert forall j :: 0 < j < |"foto"| - 1 ==> "foto"[j] != '.';
    UncheckedNames("foto");
  }
}
