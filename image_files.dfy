/** Where a listing's image lives on disk and which uploads are accepted as one:
    the `.NET` path helpers the controller uses (`Path.GetFileName`,
    `Path.GetExtension` followed by `Substring(1)`), the `{adId}.{ext}` file
    name, and the extension allow-list. */
module ImageFiles {
  import opened Models

  /** The physical directory that `MapPath("~/ListingImages/")` resolves to.
      Only one thing about it matters: it ends with a directory separator, so
      `Path.Combine` with a bare file name is plain concatenation. */
  const ListingImagesDir: string := "ListingImages\\"

  /** The accepted extensions, compared exactly (case-sensitively). */
  const AllowedExtensions: seq<string> := ["jpeg", "jpg", "png", "gif"]

  /** Directory and volume separators as .NET's path helpers see them. */
  predicate IsSeparator(c: char) {
    c == '\\' || c == '/' || c == ':'
  }

  predicate NoSeparator(s: string) {
    forall i :: 0 <= i < |s| ==> !IsSeparator(s[i])
  }

  /** `Path.GetFileName`: the longest suffix holding no separator. */
  function GetFileName(path: string): (r: string)
    ensures |r| <= |path| && r == path[|path| - |r|..]
    ensures NoSeparator(r)
    ensures |r| < |path| ==> IsSeparator(path[|path| - |r| - 1])
  {
    if |path| == 0 then ""
    else if IsSeparator(path[|path| - 1]) then ""
    else GetFileName(path[..|path| - 1]) + [path[|path| - 1]]
  }

  /** Appending a separator-free name to a directory path that ends in a
      separator gives back that name as the file name. */
  lemma {:induction false} GetFileNameOfJoin(dir: string, name: string)
    requires |dir| > 0 && IsSeparator(dir[|dir| - 1]) && NoSeparator(name)
    ensures GetFileName(dir + name) == name
  {
    if |name| == 0 {
      assert dir + name == dir;
    } else {
      var init := name[..|name| - 1];
      assert (dir + name)[..|dir + name| - 1] == dir + init;
      GetFileNameOfJoin(dir, init);
      assert name == init + [name[|name| - 1]];
    }
  }

  /** The text after the last '.' of the final path component, or None when
      that component has no '.'. */
  function AfterLastDot(path: string): Option<string>
  {
    if |path| == 0 then None
    else
      var c := path[|path| - 1];
      if c == '.' then Some("")
      else if IsSeparator(c) then None
      else match AfterLastDot(path[..|path| - 1])
        case None => None
        case Some(e) => Some(e + [c])
  }

  /** AfterLastDot finds a '.' that ends the path's text before a suffix free
      of dots and separators, and that suffix is what it returns; when it finds
      none, the file name has no dot. */
  lemma {:induction false} AfterLastDotSpec(path: string)
    ensures AfterLastDot(path).Some? ==>
              var e := AfterLastDot(path).value;
              |e| < |path| && path[|path| - |e| - 1] == '.' && path[|path| - |e|..] == e
              && '.' !in e && NoSeparator(e)
    ensures AfterLastDot(path).None? ==> '.' !in GetFileName(path)
  {
    if |path| > 0 {
      var c := path[|path| - 1];
      var init := path[..|path| - 1];
      if c != '.' && !IsSeparator(c) {
        AfterLastDotSpec(init);
        match AfterLastDot(init)
        case None =>
          assert GetFileName(path) == GetFileName(init) + [c];
        case Some(e) =>
          assert path[|path| - |e| - 1..] == init[|init| - |e|..] + [c];
      }
    }
  }

  /** `Path.GetExtension`: "." and the text after the last dot of the file
      name, or "" when there is no dot or the dot is the last character. */
  function GetExtension(path: string): (r: string)
    ensures r == "" || (r[0] == '.' && |r| >= 2)
  {
    match AfterLastDot(path)
    case None => ""
    case Some(e) => if e == "" then "" else "." + e
  }

  /** `Path.GetExtension(name).Substring(1)`: None stands for the exception
      `Substring(1)` throws on an empty extension. */
  function ExtensionWithoutDot(fileName: string): Option<string>
  {
    var e := GetExtension(fileName);
    if e == "" then None else Some(e[1..])
  }

  /** A file name of the form stem.ext, with a non-empty ext free of dots and
      separators, has extension ext whatever the stem is. */
  lemma {:induction false} ExtensionOfName(stem: string, ext: string)
    requires ext != "" && '.' !in ext && NoSeparator(ext)
    ensures ExtensionWithoutDot(stem + "." + ext) == Some(ext)
  {
    AfterLastDotOfName(stem, ext);
  }

  lemma {:induction false} AfterLastDotOfName(stem: string, ext: string)
    requires '.' !in ext && NoSeparator(ext)
    ensures AfterLastDot(stem + "." + ext) == Some(ext)
  {
    var s := stem + "." + ext;
    if |ext| == 0 {
      assert s[|s| - 1] == '.';
    } else {
      var init := ext[..|ext| - 1];
      var c := ext[|ext| - 1];
      assert ext == init + [c];
      assert s[..|s| - 1] == stem + "." + init && s[|s| - 1] == c;
      assert c != '.' && !IsSeparator(c) by {
        assert c in ext;
      }
      assert '.' !in init && NoSeparator(init) by {
        forall i | 0 <= i < |init| ensures init[i] == ext[i] && init[i] in ext {
        }
      }
      AfterLastDotOfName(stem, init);
    }
  }

  /** A file name whose last component has no dot, or ends with one, makes
      `Substring(1)` throw. */
  lemma {:induction false} NoExtensionThrows(fileName: string)
    ensures '.' !in GetFileName(fileName) ==> ExtensionWithoutDot(fileName) == None
    ensures |fileName| > 0 && fileName[|fileName| - 1] == '.' ==> ExtensionWithoutDot(fileName) == None
  {
    NoDotNoExtension(fileName);
  }

  lemma {:induction false} NoDotNoExtension(path: string)
    ensures '.' !in GetFileName(path) ==> AfterLastDot(path) == None
  {
    if |path| > 0 && '.' !in GetFileName(path) {
      var c := path[|path| - 1];
      if !IsSeparator(c) {
        var init := path[..|path| - 1];
        var g := GetFileName(init);
        assert GetFileName(path) == g + [c];
        assert c != '.' by {
          assert GetFileName(path)[|g|] == c;
        }
        forall i | 0 <= i < |g| ensures g[i] != '.' {
          assert GetFileName(path)[i] == g[i];
        }
        NoDotNoExtension(init);
      }
    }
  }

  function DigitChar(d: nat): char
    requires d < 10
  {
    "0123456789"[d]
  }

  /** Every character is a decimal digit. */
  predicate AllDigits(s: string) {
    forall i :: 0 <= i < |s| ==> '0' <= s[i] <= '9'
  }

  /** Decimal digits of a natural number, most significant first. */
  function NatDigits(n: nat): (r: string)
    ensures |r| > 0 && AllDigits(r)
  {
    if n < 10 then [DigitChar(n)] else NatDigits(n / 10) + [DigitChar(n % 10)]
  }

  /** `int.ToString()` as string interpolation renders it. */
  function DecimalString(n: int): string
  {
    if n < 0 then "-" + NatDigits(-n) else NatDigits(n)
  }

  /** The value of a string of decimal digits. */
  function ParseDigits(s: string): int
  {
    if |s| == 0 then 0
    else ParseDigits(s[..|s| - 1]) * 10 + (s[|s| - 1] as int - '0' as int)
  }

  /** The value of an optionally signed decimal string. */
  function ParseDecimal(s: string): int
  {
    if |s| > 0 && s[0] == '-' then -ParseDigits(s[1..]) else ParseDigits(s)
  }

  lemma {:induction false} ParseNatDigits(n: nat)
    ensures ParseDigits(NatDigits(n)) == n
  {
    if n >= 10 {
      ParseNatDigits(n / 10);
      var s := NatDigits(n);
      assert s[..|s| - 1] == NatDigits(n / 10);
      assert "0123456789"[n % 10] as int - '0' as int == n % 10;
    } else {
      assert "0123456789"[n] as int - '0' as int == n;
    }
  }

  /** Reading the decimal rendering of an id back gives the id. */
  lemma DecimalRoundTrip(n: int)
    ensures ParseDecimal(DecimalString(n)) == n
  {
    if n < 0 {
      NegativeRoundTrip(n);
    } else {
      NonNegativeRoundTrip(n);
    }
  }

  lemma NegativeRoundTrip(n: int)
    requires n < 0
    ensures ParseDecimal(DecimalString(n)) == n
  {
    var d := NatDigits(-n);
    calc {
      ParseDecimal(DecimalString(n));
      ParseDecimal("-" + d);
      { SignedParse(d); }
      -ParseDigits(d);
      { ParseNatDigits(-n); }
      n;
    }
  }

  lemma NonNegativeRoundTrip(n: nat)
    ensures ParseDecimal(DecimalString(n)) == n
  {
    var d := NatDigits(n);
    assert DecimalString(n) == d;
    ParseNatDigits(n);
    UnsignedParse(d);
  }

  lemma UnsignedParse(d: string)
    requires |d| > 0 && AllDigits(d)
    ensures ParseDecimal(d) == ParseDigits(d)
  {
  }

  lemma SignedParse(d: string)
    ensures ParseDecimal("-" + d) == -ParseDigits(d)
  {
    var s := "-" + d;
    assert s[0] == '-';
    assert s[1..] == d;
  }

  /** The decimal rendering holds no dot and no separator. */
  lemma DecimalStringPlain(n: int)
    ensures '.' !in DecimalString(n) && NoSeparator(DecimalString(n))
  {
  }

  /** `$"{adId}.{extension}"`. */
  function ImageFileName(adId: int, ext: string): string
  {
    DecimalString(adId) + "." + ext
  }

  /** `Path.Combine(MapPath("~/ListingImages/"), $"{adId}.{extension}")`, the
      path stored in ImagePath after an accepted upload. */
  function StoredImagePath(adId: int, ext: string): string
  {
    ListingImagesDir + ImageFileName(adId, ext)
  }

  /** The file DeleteAd removes for a listing whose ImagePath is `imagePath`:
      `MapPath($"~/ListingImages/{Path.GetFileName(imagePath)}")`. A null path
      or one ending in a separator names the directory itself, which
      `File.Exists` reports absent, so no file is removed. */
  function ImageFileToDelete(imagePath: Option<string>): Option<string>
  {
    match imagePath
    case None => None
    case Some(p) => var name := GetFileName(p); if name == "" then None else Some(ListingImagesDir + name)
  }

  /** An allowed extension holds no dot and no separator. */
  lemma AllowedExtensionPlain(ext: string)
    requires ext in AllowedExtensions
    ensures ext != "" && '.' !in ext && NoSeparator(ext)
  {
  }

  /** DeleteAd removes exactly the file an accepted upload wrote: the stored
      path leads back to itself. */
  lemma StoredImageIsDeleted(adId: int, ext: string)
    requires ext in AllowedExtensions
    ensures ImageFileToDelete(Some(StoredImagePath(adId, ext))) == Some(StoredImagePath(adId, ext))
  {
    var name := ImageFileName(adId, ext);
    DecimalStringPlain(adId);
    assert NoSeparator(name) by {
      assert name == DecimalString(adId) + ("." + ext);
    }
    GetFileNameOfJoin(ListingImagesDir, name);
  }

  /** Image files are addressed by listing id: the files InsertImageToAd
      writes for two different listings have different paths, whatever
      extensions they use. */
  lemma StoredImagePathsDistinct(id1: int, ext1: string, id2: int, ext2: string)
    requires id1 != id2
    ensures StoredImagePath(id1, ext1) != StoredImagePath(id2, ext2)
  {
    var d1, d2 := DecimalString(id1), DecimalString(id2);
    var n1, n2 := ImageFileName(id1, ext1), ImageFileName(id2, ext2);
    DecimalStringPlain(id1);
    DecimalStringPlain(id2);
    if |d1| < |d2| {
      assert n1[|d1|] == '.';
      assert n2[|d1|] == d2[|d1|] && d2[|d1|] in d2;
      assert n1 != n2;
    } else if |d2| < |d1| {
      assert n2[|d2|] == '.';
      assert n1[|d2|] == d1[|d2|] && d1[|d2|] in d1;
      assert n1 != n2;
    } else {
      DecimalRoundTrip(id1);
      DecimalRoundTrip(id2);
      assert d1 != d2;
      assert n1[..|d1|] == d1 && n2[..|d2|] == d2;
      assert n1 != n2;
    }
    assert StoredImagePath(id1, ext1)[|ListingImagesDir|..] == n1;
    assert StoredImagePath(id2, ext2)[|ListingImagesDir|..] == n2;
  }

  /** A file posted in the request: its client-side name and byte count. */
  datatype PostedFile = PostedFile(fileName: string, contentLength: int)

  /** What InsertImageToAd sees of the request: whether the body is
      multipart, and the posted files. */
  datatype ImageUpload = ImageUpload(isMultipart: bool, files: seq<PostedFile>)

  /** How InsertImageToAd treats an upload once the guards have passed:
      silently ignored, an unreadable file name (the uncaught `Substring(1)`
      exception), or accepted with an allowed extension. */
  datatype UploadVerdict = Ignored | Unreadable | Accepted(ext: string)

  /** The upload checks, in the controller's order. */
  function ClassifyUpload(u: ImageUpload): (v: UploadVerdict)
    ensures v.Accepted? ==> v.ext in AllowedExtensions
  {
    if !u.isMultipart || |u.files| != 1 || u.files[0].contentLength <= 0 then Ignored
    else match ExtensionWithoutDot(u.files[0].fileName)
      case None => Unreadable
      case Some(ext) => if ext in AllowedExtensions then Accepted(ext) else Ignored
  }

  /** A multipart request carrying one non-empty file named stem.ext with an
      allowed ext is accepted with that ext. */
  lemma AcceptsAllowedImage(stem: string, ext: string, length: int)
    requires ext in AllowedExtensions && length > 0
    ensures ClassifyUpload(ImageUpload(true, [PostedFile(stem + "." + ext, length)])) == Accepted(ext)
  {
    AllowedExtensionPlain(ext);
    ExtensionOfName(stem, ext);
  }

  /** An extension outside the list is ignored, and so is an allowed one
      written in another case. */
  lemma WrongExtensionIgnored(stem: string, ext: string, length: int)
    requires ext != "" && '.' !in ext && NoSeparator(ext) && ext !in AllowedExtensions
    ensures ClassifyUpload(ImageUpload(true, [PostedFile(stem + "." + ext, length)])) == Ignored
  {
    ExtensionOfName(stem, ext);
  }

  /** A ".txt" file is ignored, and so is a ".PNG" file: the comparison
      with the list is case-sensitive. */
  lemma UnlistedExtensionsIgnored(stem: string, length: int)
    ensures ClassifyUpload(ImageUpload(true, [PostedFile(stem + ".txt", length)])) == Ignored
    ensures ClassifyUpload(ImageUpload(true, [PostedFile(stem + ".PNG", length)])) == Ignored
  {
    var txt, png := "txt", "PNG";
    assert stem + ".txt" == stem + "." + txt && stem + ".PNG" == stem + "." + png;
    assert txt != "jpeg" && txt != "jpg" && txt != "png" && txt != "gif";
    assert png != "jpeg" && png != "jpg" && png != "png" && png != "gif";
    WrongExtensionIgnored(stem, txt, length);
    WrongExtensionIgnored(stem, png, length);
  }

  /** Empty files, several files or none, and non-multipart bodies are ignored. */
  lemma MalformedUploadsIgnored(name: string, files: seq<PostedFile>)
    ensures ClassifyUpload(ImageUpload(true, [PostedFile(name, 0)])) == Ignored
    ensures |files| != 1 ==> ClassifyUpload(ImageUpload(true, files)) == Ignored
    ensures ClassifyUpload(ImageUpload(false, files)) == Ignored
  {
  }

  /** Every verdict other than Accepted leaves the listing's image alone; an
      accepted upload is exactly one non-empty multipart file whose extension
      is on the list. */
  lemma AcceptedExactly(u: ImageUpload, ext: string)
    ensures ClassifyUpload(u) == Accepted(ext) <==>
              u.isMultipart && |u.files| == 1 && u.files[0].contentLength > 0
              && ExtensionWithoutDot(u.files[0].fileName) == Some(ext) && ext in AllowedExtensions
  {
  }
}
