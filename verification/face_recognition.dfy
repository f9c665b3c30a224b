/**
 * The face gallery and the identity match rule. Reading image files,
 * locating faces and computing encodings and distances are collaborators:
 * a gallery file is given with the encoding of its first face (if any), a
 * query image with the encodings of its faces, and the distance metric is a
 * parameter.
 */
module FaceRecognition {
  import opened Wrappers

  /** A face encoding, as the encoder reports it. */
  type Encoding = seq<real>

  /** The metric the matcher uses between a gallery encoding and a query encoding. */
  type Metric = (Encoding, Encoding) -> real

  const DefaultTolerance: real := 0.6
  const UnknownName: string := "Unknown"

  // ---------------------------------------------------------------------
  // Gallery file names
  // ---------------------------------------------------------------------

  function LowerChar(c: char): char {
    if 'A' <= c <= 'Z' then (c as int + 32) as char else c
  }

  function Lower(s: string): (r: string)
    ensures |r| == |s|
    ensures forall i :: 0 <= i < |s| ==> r[i] == LowerChar(s[i])
  {
    seq(|s|, i requires 0 <= i < |s| => LowerChar(s[i]))
  }

  predicate EndsWith(s: string, suffix: string) {
    |suffix| <= |s| && s[|s| - |suffix|..] == suffix
  }

  /** The gallery filter: the lower-cased name ends in one of the image extensions. */
  predicate HasImageExtension(filename: string)
    ensures HasImageExtension(filename) ==>
              4 <= ExtensionLength(filename) <= |filename| && filename[|filename| - ExtensionLength(filename)] == '.'
  {
    var l := Lower(filename);
    EndsWith(l, ".png") || EndsWith(l, ".jpg") || EndsWith(l, ".jpeg")
  }

  /** The filter ignores case: a name passes it iff its lower-cased form does. */
  lemma ImageExtensionIgnoresCase(filename: string)
    ensures HasImageExtension(filename) <==> HasImageExtension(Lower(filename))
  {
    var l := Lower(filename);
    assert Lower(l) == l by {
      forall i | 0 <= i < |l| ensures Lower(l)[i] == l[i] {
        assert LowerChar(LowerChar(filename[i])) == LowerChar(filename[i]);
      }
    }
  }

  /** The position of the last `c` in `s`, if any. */
  function LastIndexOf(s: string, c: char): (r: Option<nat>)
    ensures r.Some? ==> r.value < |s| && s[r.value] == c
    ensures r.Some? ==> forall j :: r.value < j < |s| ==> s[j] != c
    ensures r.None? ==> forall j :: 0 <= j < |s| ==> s[j] != c
  {
    if s == [] then None
    else if s[|s| - 1] == c then Some(|s| - 1)
    else LastIndexOf(s[..|s| - 1], c)
  }

  /**
   * Splitting a bare file name into root and extension: the extension runs
   * from the last dot, unless everything before that dot is dots.
   */
  function Splitext(p: string): (r: (string, string))
    ensures r.0 + r.1 == p
    ensures r.1 != "" ==> r.1[0] == '.' && forall j :: 1 <= j < |r.1| ==> r.1[j] != '.'
    ensures r.1 != "" ==> exists j :: 0 <= j < |r.0| && r.0[j] != '.'
    ensures LastIndexOf(p, '.').Some? && (exists j :: 0 <= j < LastIndexOf(p, '.').value && p[j] != '.') ==>
              r == (p[..LastIndexOf(p, '.').value], p[LastIndexOf(p, '.').value..])
    ensures LastIndexOf(p, '.').None? || (forall j :: 0 <= j < LastIndexOf(p, '.').value ==> p[j] == '.') ==>
              r == (p, "")
  {
    match LastIndexOf(p, '.')
    case None => (p, "")
    case Some(d) =>
      if exists j :: 0 <= j < d && p[j] != '.' then
        assert p[..d] + p[d..] == p;
        (p[..d], p[d..])
      else (p, "")
  }

  /** The name a gallery file is stored under. */
  function Name(filename: string): string {
    Splitext(filename).0
  }

  /** The stored name is the file name, or a proper prefix of it that stops at a dot. */
  lemma NameIsPrefix(filename: string)
    ensures var n := Name(filename);
            |n| <= |filename| && n == filename[..|n|] && (n != filename ==> filename[|n|] == '.')
  {
    var r := Splitext(filename);
    assert filename == r.0 + r.1;
  }

  /** The length of the image extension that a name passing the filter ends in. */
  function ExtensionLength(filename: string): nat {
    if EndsWith(Lower(filename), ".jpeg") then 5 else 4
  }

  /**
   * The stored name of an image file is the file name without its image
   * extension, except when everything before the extension is dots.
   */
  lemma NameOfImageFile(f: string)
    requires HasImageExtension(f)
    ensures ExtensionLength(f) <= |f|
    ensures (exists j :: 0 <= j < |f| - ExtensionLength(f) && f[j] != '.') ==>
              Name(f) == f[..|f| - ExtensionLength(f)]
    ensures (forall j :: 0 <= j < |f| - ExtensionLength(f) ==> f[j] == '.') ==> Name(f) == f
  {
    var d := |f| - ExtensionLength(f);
    ExtensionHasOneDot(f);
    match LastIndexOf(f, '.')
    case None =>
    case Some(e) =>
      assert e == d;
      if exists j :: 0 <= j < d && f[j] != '.' {
        assert Splitext(f) == (f[..d], f[d..]);
      } else {
        assert Splitext(f) == (f, "");
      }
  }

  /** The image extension a name ends in holds no dot after its leading one. */
  lemma ExtensionHasOneDot(f: string)
    requires HasImageExtension(f)
    ensures forall j :: |f| - ExtensionLength(f) < j < |f| ==> f[j] != '.'
  {
    var l, k := Lower(f), ExtensionLength(f);
    var d := |f| - k;
    assert l[d..] == if k == 5 then ".jpeg" else if EndsWith(l, ".png") then ".png" else ".jpg";
    forall j | d < j < |f| ensures f[j] != '.' {
      assert l[j] == l[d..][j - d];
    }
  }

  /** A mixed-case extension passes the filter and is dropped from the name. */
  lemma UpperCaseExtensionExample()
    ensures HasImageExtension("Bob.JPG") && Name("Bob.JPG") == "Bob"
  {
    var f := "Bob.JPG";
    assert Lower(f)[3..] == ".jpg";
    assert Lower(f)[2..][0] == 'b';
    assert ExtensionLength(f) == 4;
    NameOfImageFile(f);
    assert f[0] != '.';
    assert f[..3] == "Bob";
  }

  /** Only the last extension is removed. */
  lemma LastExtensionExample()
    ensures HasImageExtension("a.b.jpeg") && Name("a.b.jpeg") == "a.b"
  {
    var f := "a.b.jpeg";
    assert Lower(f)[3..] == ".jpeg";
    NameOfImageFile(f);
    assert f[0] != '.';
  }

  /** A file called just ".png" passes the filter and keeps its whole name. */
  lemma DotOnlyNameExample()
    ensures HasImageExtension(".png") && Name(".png") == ".png"
  {
    var f := ".png";
    assert Lower(f)[0..] == ".png";
    assert !EndsWith(Lower(f), ".jpeg");
    NameOfImageFile(f);
  }

  lemma RejectedNameExamples()
    ensures !HasImageExtension("notes.txt") && !HasImageExtension("png")
  {
    assert Lower("notes.txt")[5..] == ".txt";
    assert Lower("png")[0] == 'p';
  }

  // ---------------------------------------------------------------------
  // Loading the gallery
  // ---------------------------------------------------------------------

  /** A directory entry, with the encoding of the first face found in it, if any. */
  datatype GalleryFile = GalleryFile(filename: string, face: Option<Encoding>)

  predicate Admitted(f: GalleryFile) {
    HasImageExtension(f.filename) && f.face.Some?
  }

  /** The entries that make it into the gallery, in directory order. */
  function Gallery(files: seq<GalleryFile>): (g: seq<GalleryFile>)
    ensures |g| <= |files|
    ensures forall k :: 0 <= k < |g| ==> Admitted(g[k])
  {
    if files == [] then []
    else
      var f := files[|files| - 1];
      Gallery(files[..|files| - 1]) + (if Admitted(f) then [f] else [])
  }

  /** The encodings `load_database` returns: each admitted file's first face, in directory order. */
  function GalleryEncodings(files: seq<GalleryFile>): (e: seq<Encoding>)
    ensures |e| == |Gallery(files)|
  {
    if files == [] then []
    else
      var f := files[|files| - 1];
      GalleryEncodings(files[..|files| - 1]) + (if Admitted(f) then [f.face.value] else [])
  }

  /** The names `load_database` returns: each admitted file's name, in directory order. */
  function GalleryNames(files: seq<GalleryFile>): (n: seq<string>)
    ensures |n| == |Gallery(files)|
  {
    if files == [] then []
    else
      var f := files[|files| - 1];
      GalleryNames(files[..|files| - 1]) + (if Admitted(f) then [Name(f.filename)] else [])
  }

  /** Both lists line up with the gallery: at every index, that entry's face and name. */
  lemma {:induction false} GalleryListsAt(files: seq<GalleryFile>)
    ensures forall k :: 0 <= k < |Gallery(files)| ==>
              GalleryEncodings(files)[k] == Gallery(files)[k].face.value &&
              GalleryNames(files)[k] == Name(Gallery(files)[k].filename)
  {
    if files != [] {
      var p := files[..|files| - 1];
      GalleryListsAt(p);
      forall k | 0 <= k < |Gallery(files)|
        ensures GalleryEncodings(files)[k] == Gallery(files)[k].face.value
        ensures GalleryNames(files)[k] == Name(Gallery(files)[k].filename)
      {
        if k < |Gallery(p)| {
          assert Gallery(files)[k] == Gallery(p)[k];
          assert GalleryEncodings(files)[k] == GalleryEncodings(p)[k];
          assert GalleryNames(files)[k] == GalleryNames(p)[k];
        }
      }
    }
  }

  /** The directory loop: both lists grow together, one entry per admitted file. */
  method LoadDatabase(files: seq<GalleryFile>) returns (encodings: seq<Encoding>, names: seq<string>)
    ensures |encodings| == |names| == |Gallery(files)|
    ensures forall k :: 0 <= k < |names| ==>
              names[k] == Name(Gallery(files)[k].filename) && encodings[k] == Gallery(files)[k].face.value
    ensures encodings == GalleryEncodings(files) && names == GalleryNames(files)
  {
    encodings, names := [], [];
    for i := 0 to |files|
      invariant encodings == GalleryEncodings(files[..i])
      invariant names == GalleryNames(files[..i])
    {
      assert files[..i + 1][..i] == files[..i];
      var f := files[i];
      if !HasImageExtension(f.filename) {
        continue;
      }
      var name := Name(f.filename);
      if f.face.None? {
        continue;
      }
      encodings := encodings + [f.face.value];
      names := names + [name];
    }
    assert files[..|files|] == files;
    GalleryListsAt(files);
  }

  /** A file is in the gallery exactly when it is in the directory and admitted. */
  lemma {:induction false} GalleryMembers(files: seq<GalleryFile>, f: GalleryFile)
    ensures f in Gallery(files) <==> f in files && Admitted(f)
  {
    if files != [] {
      var p := files[..|files| - 1];
      GalleryMembers(p, f);
      assert files == p + [files[|files| - 1]];
    }
  }

  /** Loading keeps directory order: the gallery of a concatenation is the concatenation. */
  lemma {:induction false} GalleryAppend(a: seq<GalleryFile>, b: seq<GalleryFile>)
    ensures Gallery(a + b) == Gallery(a) + Gallery(b)
    decreases |b|
  {
    if b == [] {
      assert a + b == a;
    } else {
      var c := b[..|b| - 1];
      assert (a + b)[..|a + b| - 1] == a + c;
      GalleryAppend(a, c);
    }
  }

  // ---------------------------------------------------------------------
  // Matching
  // ---------------------------------------------------------------------

  datatype RecognitionError =
    | ImageNotFound  // the query image could not be read
    | EmptyGallery   // a face was matched against no encodings: the minimum of nothing

  /** The index of the first minimum. */
  function ArgMin(d: seq<real>): (k: nat)
    requires d != []
    ensures k < |d|
    ensures forall j :: 0 <= j < |d| ==> d[k] <= d[j]
    ensures forall j :: 0 <= j < k ==> d[j] > d[k]
  {
    if |d| == 1 then 0
    else
      var k := ArgMin(d[..|d| - 1]);
      if d[|d| - 1] < d[k] then |d| - 1 else k
  }

  /** The match rule for one face, given its distance to every gallery encoding. */
  function MatchDistances(distances: seq<real>, names: seq<string>, tolerance: real): (r: Result<string, RecognitionError>)
    requires |names| == |distances|
    ensures r.Err? <==> distances == []
    ensures r.Err? ==> r.error == EmptyGallery
    ensures r.Ok? && (exists j :: 0 <= j < |distances| && distances[j] <= tolerance) ==>
              exists k :: 0 <= k < |distances| && r.value == names[k] && distances[k] <= tolerance &&
                (forall j :: 0 <= j < |distances| ==> distances[k] <= distances[j]) &&
                (forall j :: 0 <= j < k ==> distances[j] > distances[k])
    ensures r.Ok? && (forall j :: 0 <= j < |distances| ==> distances[j] > tolerance) ==> r.value == UnknownName
  {
    if distances == [] then Err(EmptyGallery)
    else
      var k := ArgMin(distances);
      if distances[k] <= tolerance then Ok(names[k]) else Ok(UnknownName)
  }

  /** The distance of one query face to each gallery encoding, in gallery order. */
  function FaceDistances(known: seq<Encoding>, face: Encoding, dist: Metric): (ds: seq<real>)
    ensures |ds| == |known|
    ensures forall j :: 0 <= j < |known| ==> ds[j] == dist(known[j], face)
  {
    seq(|known|, j requires 0 <= j < |known| => dist(known[j], face))
  }

  /**
   * The match rule for one query face: the name of the nearest gallery
   * encoding (the first on a tie) when it is within the tolerance, otherwise
   * `"Unknown"`; the minimum of an empty gallery raises.
   */
  function MatchFace(known: seq<Encoding>, names: seq<string>, face: Encoding, dist: Metric, tolerance: real): (r: Result<string, RecognitionError>)
    requires |names| == |known|
    ensures r.Err? <==> known == []
    ensures r.Err? ==> r.error == EmptyGallery
  {
    MatchDistances(FaceDistances(known, face, dist), names, tolerance)
  }

  /** The match rule in terms of the metric: the first nearest name within the tolerance, else `"Unknown"`. */
  lemma MatchFaceNearest(known: seq<Encoding>, names: seq<string>, face: Encoding, dist: Metric, tolerance: real)
    requires |names| == |known|
    ensures var r := MatchFace(known, names, face, dist, tolerance);
            r.Ok? && (exists j :: 0 <= j < |known| && dist(known[j], face) <= tolerance) ==>
              exists k :: 0 <= k < |known| && r.value == names[k] && dist(known[k], face) <= tolerance &&
                (forall j :: 0 <= j < |known| ==> dist(known[k], face) <= dist(known[j], face)) &&
                (forall j :: 0 <= j < k ==> dist(known[j], face) > dist(known[k], face))
    ensures var r := MatchFace(known, names, face, dist, tolerance);
            r.Ok? && (forall j :: 0 <= j < |known| ==> dist(known[j], face) > tolerance) ==> r.value == UnknownName
  {
    var ds := FaceDistances(known, face, dist);
    if exists j :: 0 <= j < |known| && dist(known[j], face) <= tolerance {
      var j :| 0 <= j < |known| && dist(known[j], face) <= tolerance;
      assert ds[j] <= tolerance;
    }
  }

  /** The labels of a list of faces, or the error that stops the loop. */
  function LabelFaces(faces: seq<Encoding>, known: seq<Encoding>, names: seq<string>, dist: Metric, tolerance: real): (r: Result<seq<string>, RecognitionError>)
    requires |names| == |known|
    ensures r.Err? <==> faces != [] && known == []
    ensures r.Err? ==> r.error == EmptyGallery
    ensures r.Ok? ==> |r.value| == |faces|
    ensures r.Ok? ==> forall i :: 0 <= i < |faces| ==> MatchFace(known, names, faces[i], dist, tolerance) == Ok(r.value[i])
  {
    if faces == [] then Ok([])
    else
      var p := faces[..|faces| - 1];
      match LabelFaces(p, known, names, dist, tolerance)
      case Err(e) => Err(e)
      case Ok(labels) =>
        match MatchFace(known, names, faces[|faces| - 1], dist, tolerance)
        case Err(e) => Err(e)
        case Ok(n) => Ok(labels + [n])
  }

  /** The matching loop: one label per face, in face order. */
  method RecognizeFaces(faces: seq<Encoding>, known: seq<Encoding>, names: seq<string>, dist: Metric, tolerance: real)
    returns (r: Result<seq<string>, RecognitionError>)
    requires |names| == |known|
    ensures r == LabelFaces(faces, known, names, dist, tolerance)
  {
    var results := [];
    for i := 0 to |faces|
      invariant LabelFaces(faces[..i], known, names, dist, tolerance) == Ok(results)
    {
      assert faces[..i + 1][..i] == faces[..i];
      var distances := FaceDistances(known, faces[i], dist);
      var m := MatchDistances(distances, names, tolerance);
      if m.Err? {
        return Err(m.error);
      }
      results := results + [m.value];
    }
    assert faces[..|faces|] == faces;
    return Ok(results);
  }

  /** What reading a query image gives: nothing, or the encodings of its faces. */
  datatype Image = Unreadable | Loaded(faces: seq<Encoding>)

  function RecognitionOf(image: Image, known: seq<Encoding>, names: seq<string>, dist: Metric): (r: Result<seq<string>, RecognitionError>)
    requires |names| == |known|
    ensures image.Unreadable? <==> r == Err(ImageNotFound)
    ensures image.Loaded? && r.Ok? ==> |r.value| == |image.faces|
  {
    match image
    case Unreadable => Err(ImageNotFound)
    case Loaded(faces) => LabelFaces(faces, known, names, dist, DefaultTolerance)
  }

  /** Recognition from a stored image file, at the default tolerance. */
  method RecognizeFromImage(image: Image, known: seq<Encoding>, names: seq<string>, dist: Metric)
    returns (r: Result<seq<string>, RecognitionError>)
    requires |names| == |known|
    ensures r == RecognitionOf(image, known, names, dist)
  {
    if image.Unreadable? {
      return Err(ImageNotFound);
    }
    r := RecognizeFaces(image.faces, known, names, dist, DefaultTolerance);
  }

  /** The scenario of two gallery entries at distances 0.7/0.8 and 0.3/0.8. */
  lemma MatchExamples(names: seq<string>)
    requires |names| == 2
    ensures MatchDistances([0.7, 0.8], names, DefaultTolerance) == Ok(UnknownName)
    ensures MatchDistances([0.3, 0.8], names, DefaultTolerance) == Ok(names[0])
    ensures MatchDistances([0.5, 0.5], names, DefaultTolerance) == Ok(names[0])
    ensures MatchDistances([0.6], names[..1], DefaultTolerance) == Ok(names[0])
  {
    assert ArgMin([0.3, 0.8]) == 0;
    assert ArgMin([0.5, 0.5]) == 0;
  }

  // ---------------------------------------------------------------------
  // The command-line entry point
  // ---------------------------------------------------------------------

  datatype MainError =
    | DatabaseNotFound
    | NoEncodings
    | NoQuerySource
    | RecognitionFailed(cause: RecognitionError)

  datatype MainOutcome =
    | Detected(labels: seq<string>)
    | CameraLoop
    | Raised(error: MainError)

  /** Python truthiness of the optional query path. */
  predicate Truthy(path: Option<string>) {
    path.Some? && path.value != ""
  }

  /** The `main()` of the recognition script, with its directory check, gallery check and query dispatch. */
  method RecognizeCommand(dirExists: bool, files: seq<GalleryFile>, useCamera: bool, queryPath: Option<string>, query: Image, dist: Metric)
    returns (out: MainOutcome)
    ensures !dirExists ==> out == Raised(DatabaseNotFound)
    ensures dirExists && Gallery(files) == [] ==> out == Raised(NoEncodings)
    ensures dirExists && Gallery(files) != [] && useCamera ==> out == CameraLoop
    ensures dirExists && Gallery(files) != [] && !useCamera && !Truthy(queryPath) ==> out == Raised(NoQuerySource)
    ensures dirExists && Gallery(files) != [] && !useCamera && Truthy(queryPath) ==>
              (query.Unreadable? ==> out == Raised(RecognitionFailed(ImageNotFound))) &&
              (query.Loaded? ==> out.Detected? && |out.labels| == |query.faces|) &&
              (query.Loaded? ==>
                 out == Detected(LabelFaces(query.faces, GalleryEncodings(files), GalleryNames(files), dist, DefaultTolerance).value))
  {
    if !dirExists {
      return Raised(DatabaseNotFound);
    }
    var encodings, names := LoadDatabase(files);
    if encodings == [] {
      return Raised(NoEncodings);
    }
    if useCamera {
      return CameraLoop;
    } else if Truthy(queryPath) {
      var r := RecognizeFromImage(query, encodings, names, dist);
      match r
      case Err(e) => return Raised(RecognitionFailed(e));
      case Ok(labels) => return Detected(labels);
    } else {
      return Raised(NoQuerySource);
    }
  }
}
