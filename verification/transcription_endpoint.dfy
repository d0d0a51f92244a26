/** The upload check of `transcribe_file`: the lower-cased file extension
    decides between audio and video, and anything else is refused before
    the file is transcribed. */
module TranscriptionEndpoint {
  import opened Wrappers
  import opened Strings
  import opened TranscriptionService

  /** Some character of `p[lo..hi]` is not a dot. */
  predicate HasNonDot(p: string, lo: int, hi: int)
    requires 0 <= lo <= hi <= |p|
  {
    exists k | lo <= k < hi :: p[k] != '.'
  }

  /** `os.path.splitext(p)[1]` on a POSIX system: from the last dot of the
      final path component to the end, unless every character of the
      component before that dot is itself a dot (".bashrc" has none). */
  function Extension(p: string): (ext: string)
    ensures |ext| <= |p| && ext == p[|p| - |ext|..]
    ensures ext == [] || (ext[0] == '.' && '.' !in ext[1..] && '/' !in ext)
    ensures ext != [] ==> exists k | RFind(p, '/') < k < |p| - |ext| :: p[k] != '.'
    ensures ext == [] ==>
              forall k, j | RFind(p, '/') < j < k < |p| && p[k] == '.' :: p[j] == '.'
  {
    var sepIndex := RFind(p, '/');
    var dotIndex := RFind(p, '.');
    if dotIndex > sepIndex && HasNonDot(p, sepIndex + 1, dotIndex) then
      assert p[dotIndex..][1..] == p[dotIndex + 1..];
      p[dotIndex..]
    else
      ""
  }

  /** Lower-casing changes neither slashes nor dots. */
  lemma LowerKeepsSeparators(p: string, c: char)
    requires c == '/' || c == '.'
    ensures RFind(Lower(p), c) == RFind(p, c)
  {
    LowerKeepsNonLetter(p, c);
    RFindAgree(p, Lower(p), c);
  }

  /** Taking the extension commutes with lower-casing the name. */
  lemma {:induction false} ExtensionOfLower(p: string)
    ensures Extension(Lower(p)) == Lower(Extension(p))
  {
    var q := Lower(p);
    LowerKeepsSeparators(p, '/');
    LowerKeepsSeparators(p, '.');
    var sepIndex := RFind(p, '/');
    var dotIndex := RFind(p, '.');
    if dotIndex > sepIndex {
      HasNonDotOfLower(p, sepIndex + 1, dotIndex);
      LowerSuffix(p, dotIndex);
    }
  }

  /** Lower-casing keeps every non-dot a non-dot. */
  lemma HasNonDotOfLower(p: string, lo: int, hi: int)
    requires 0 <= lo <= hi <= |p|
    ensures HasNonDot(Lower(p), lo, hi) <==> HasNonDot(p, lo, hi)
  {
    LowerKeepsNonLetter(p, '.');
  }

  /** Lower-casing works character by character, so it commutes with
      taking a suffix. */
  lemma LowerSuffix(p: string, i: int)
    requires 0 <= i <= |p|
    ensures Lower(p)[i..] == Lower(p[i..])
  {
  }

  const AudioFormats: seq<string> := [".mp3", ".wav", ".ogg", ".m4a"]
  const VideoFormats: seq<string> := [".mp4", ".avi", ".mov", ".webm"]

  /** The two lists share no extension. */
  lemma FormatsDisjoint()
    ensures forall e | e in AudioFormats :: e !in VideoFormats
  {
  }

  /** The `file_type` stored with an accepted upload. */
  datatype MediaType = Audio | Video {
    function Name(): string {
      match this
      case Audio => "audio"
      case Video => "video"
    }
  }

  /** An `HTTPException` with its status code and detail text. */
  datatype HttpError = HttpError(status: int, detail: string)

  /** The refusal of an unsupported extension, listing the accepted ones. */
  const UnsupportedFormat := HttpError(400, "지원하지 않는 파일 형식입니다. 지원하는 형식: " + Join(", ", AudioFormats + VideoFormats))

  /** The extension check of `transcribe_file`. */
  function Classify(filename: string): (r: Result<MediaType, HttpError>)
    ensures r == Ok(Audio) <==> Lower(Extension(filename)) in AudioFormats
    ensures r == Ok(Video) <==> Lower(Extension(filename)) in VideoFormats
    ensures r.Err? <==> Lower(Extension(filename)) !in AudioFormats + VideoFormats
    ensures r.Err? ==> r.error == UnsupportedFormat
  {
    FormatsDisjoint();
    var ext := Lower(Extension(filename));
    if ext in AudioFormats then Ok(Audio)
    else if ext in VideoFormats then Ok(Video)
    else Err(UnsupportedFormat)
  }

  /** The `file_type` text stored for an upload: "audio" exactly for the
      audio extensions, "video" exactly for the video ones. */
  lemma StoredFileType(filename: string)
    ensures Classify(filename).Ok? && Classify(filename).value.Name() == "audio"
            <==> Lower(Extension(filename)) in AudioFormats
    ensures Classify(filename).Ok? && Classify(filename).value.Name() == "video"
            <==> Lower(Extension(filename)) in VideoFormats
  {
  }

  /** Names that differ only in ASCII letter case are classified alike. */
  lemma ClassifyIgnoresCase(a: string, b: string)
    requires Lower(a) == Lower(b)
    ensures Classify(a) == Classify(b)
  {
    ExtensionOfLower(a);
    ExtensionOfLower(b);
  }

  /** A name without an extension is refused. */
  lemma NoExtensionRejected(filename: string)
    requires Extension(filename) == []
    ensures Classify(filename) == Err(UnsupportedFormat)
  {
    assert Lower([]) == [];
  }

  /** A listed extension after a stem whose last character is neither a
      slash nor a dot is the name's extension, whatever its letter case. */
  lemma {:induction false} ExtensionAfterStem(stem: string, ext: string)
    requires |stem| > 0 && stem[|stem| - 1] != '/' && stem[|stem| - 1] != '.'
    requires |ext| > 0 && ext[0] == '.' && '.' !in ext[1..] && '/' !in ext
    ensures Extension(stem + ext) == ext
  {
    var p := stem + ext;
    StemExtDot(stem, ext);
    StemExtSep(stem, ext);
    assert p[|stem| - 1] != '.';
    assert HasNonDot(p, RFind(p, '/') + 1, |stem|);
    assert p[|stem|..] == ext;
  }

  /** The extension's dot is the last dot of the name. */
  lemma StemExtDot(stem: string, ext: string)
    requires |ext| > 0 && ext[0] == '.' && '.' !in ext[1..]
    ensures RFind(stem + ext, '.') == |stem|
  {
    var p := stem + ext;
    assert p[|stem| + 1..] == ext[1..];
    RFindAt(p, '.', |stem|);
  }

  /** The name's last slash, if any, lies before the stem's last character. */
  lemma StemExtSep(stem: string, ext: string)
    requires |stem| > 0 && stem[|stem| - 1] != '/'
    requires '/' !in ext
    ensures RFind(stem + ext, '/') < |stem| - 1
  {
    var p := stem + ext;
    assert forall k | |stem| <= k < |p| :: p[k] == ext[k - |stem|];
  }

  /** "x.mp3", "Talk.M4A", "clip.MoV": the listed extensions classify as
      their media type in any letter case. */
  lemma ListedExtensionsClassify(stem: string, ext: string)
    requires |stem| > 0 && stem[|stem| - 1] != '/' && stem[|stem| - 1] != '.'
    requires Lower(ext) in AudioFormats + VideoFormats
    ensures Lower(ext) in AudioFormats ==> Classify(stem + ext) == Ok(Audio)
    ensures Lower(ext) in VideoFormats ==> Classify(stem + ext) == Ok(Video)
  {
    var e := Lower(ext);
    assert |e| > 0 && e[0] == '.' && '.' !in e[1..] && '/' !in e;
    assert |ext| == |e| && ext[0] == '.';
    LowerKeepsNonLetter(ext, '.');
    LowerKeepsNonLetter(ext, '/');
    assert '.' !in ext[1..] by {
      forall i | 1 <= i < |ext| ensures ext[i] != '.' {
        assert e[1..][i - 1] == e[i];
      }
    }
    ExtensionAfterStem(stem, ext);
  }

  /** What the endpoint hands on: the media type and the transcript. */
  datatype Transcribed = Transcribed(fileType: MediaType, result: Transcription)

  /** Why the endpoint gave no transcript: a refused upload, or a
      transcription failure that escapes as an error. */
  datatype EndpointError = Rejected(http: HttpError) | Failed(message: string)

  /** `transcribe_file` without the upload, temporary-file and database
      steps: classify the name, then transcribe the stored copy. */
  function TranscribeFile(filename: string, tempPath: string, transcribe: Transcriber)
    : (r: Result<Transcribed, EndpointError>)
    ensures Classify(filename).Err? ==> r == Err(Rejected(UnsupportedFormat))
    ensures Classify(filename).Ok? && transcribe(tempPath).Err? ==> r == Err(Failed(transcribe(tempPath).error))
    ensures r.Ok? ==> Classify(filename) == Ok(r.value.fileType) && transcribe(tempPath) == Ok(r.value.result)
  {
    match Classify(filename)
    case Err(e) => Err(Rejected(e))
    case Ok(kind) =>
      match transcribe(tempPath)
      case Err(m) => Err(Failed(m))
      case Ok(t) => Ok(Transcribed(kind, t))
  }

  /** A refused upload never reaches the transcriber: its outcome is the
      same whatever the transcriber would have done. */
  lemma RejectedBeforeTranscription(filename: string, tempPath: string, t1: Transcriber, t2: Transcriber)
    requires Classify(filename).Err?
    ensures TranscribeFile(filename, tempPath, t1) == TranscribeFile(filename, tempPath, t2)
    ensures TranscribeFile(filename, tempPath, t1).error.http.status == 400
  {
  }
}
