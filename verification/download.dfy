/** `MediaDownloader`: choosing a file extension from a media url, the
    dispatch on the media type, and the decision `download_file` takes once
    the transfer is over. The HTTP transfer itself and the random file name
    are parameters. */
module Download {

  import opened Text
  import opened Py

  /** The downloader's default directory. */
  const TempDir: string := "data/plugins_data/astrbot_plugin_fuckanka/temp"

  const ImageTypes: set<string> := {"jpg", "jpeg", "png", "gif", "webp", "bmp"}
  const VideoTypes: set<string> := {"mp4", "mov", "webm", "mkv", "flv", "avi"}

  /** The host fragment that marks a Tencent multimedia link. */
  const TencentHost: string := "multimedia.nt.qq.com"

  /** `_is_tencent_multimedia_url`: a non-empty url mentioning either the
      `.com.cn` or the `.com` host. */
  function IsTencentMultimediaUrl(url: string): (r: bool)
    ensures r <==> Contains(url, TencentHost)
  {
    CnHostMentionsHost(url);
    url != "" && (Contains(url, TencentHost + ".cn") || Contains(url, TencentHost))
  }

  /** The `.com.cn` alternative and the emptiness test add nothing: a url
      mentioning the `.com.cn` host mentions the `.com` host, and a url
      mentioning a host is not empty. */
  lemma CnHostMentionsHost(url: string)
    ensures Contains(url, TencentHost + ".cn") ==> Contains(url, TencentHost)
    ensures Contains(url, TencentHost) ==> url != ""
  {
    if Contains(url, TencentHost + ".cn") {
      var i :| 0 <= i <= |url| && OccursAt(url, TencentHost + ".cn", i);
      assert url[i..i + |TencentHost|] == (TencentHost + ".cn")[..|TencentHost|];
      assert OccursAt(url, TencentHost, i);
    }
    if Contains(url, TencentHost) {
      var i :| 0 <= i <= |url| && OccursAt(url, TencentHost, i);
      assert |url| >= |TencentHost| > 0;
    }
  }

  /** The extension `download_image` and `download_video` choose: when the
      last `/`-segment of the url holds a dot, the text after the url's last
      dot, cut at the first `?` and lower-cased, if it is an allowed type;
      the default otherwise. */
  function InferExtension(url: string, default: string, allowed: set<string>): (r: string)
    ensures r == default || r in allowed
    ensures '.' !in AfterLast(url, '/') ==> r == default
    ensures r != default ==> r == Lower(BeforeFirst(AfterLast(url, '.'), '?'))
    ensures '.' in AfterLast(url, '/') && Lower(BeforeFirst(AfterLast(url, '.'), '?')) in allowed ==>
              r == Lower(BeforeFirst(AfterLast(url, '.'), '?'))
  {
    if '.' in AfterLast(url, '/') then
      var ext := Lower(BeforeFirst(AfterLast(url, '.'), '?'));
      if ext in allowed then ext else default
    else default
  }

  /** A url naming a file `name.ext`, with or without a query, yields `ext`
      whenever `ext` is an allowed lower-case type. */
  lemma ExtensionOfFileName(prefix: string, name: string, ext: string, query: string,
                            default: string, allowed: set<string>)
    requires ext in allowed
    requires forall i :: 0 <= i < |ext| ==> !('A' <= ext[i] <= 'Z')
    requires '/' !in name && '/' !in ext && '/' !in query
    requires '.' !in ext && '.' !in query && '?' !in ext
    requires query == [] || query[0] == '?'
    ensures InferExtension(prefix + "/" + name + "." + ext + query, default, allowed) == ext
  {
    var url := prefix + "/" + name + "." + ext + query;
    FileNameExtension(prefix, name, ext, query);
    InferredWhenAllowed(url, ext, default, allowed);
  }

  /** The url `prefix/name.ext?query` has a dot in its last segment, and
      its cut, lower-cased last-dot text is `ext`. */
  lemma FileNameExtension(prefix: string, name: string, ext: string, query: string)
    requires forall i :: 0 <= i < |ext| ==> !('A' <= ext[i] <= 'Z')
    requires '/' !in name && '/' !in ext && '/' !in query
    requires '.' !in ext && '.' !in query && '?' !in ext
    requires query == [] || query[0] == '?'
    ensures var url := prefix + "/" + name + "." + ext + query;
            '.' in AfterLast(url, '/') && Lower(BeforeFirst(AfterLast(url, '.'), '?')) == ext
  {
    var url := prefix + "/" + name + "." + ext + query;
    var tail := ext + query;
    assert url == prefix + "/" + name + "." + tail by {
      ConcatAssoc(prefix + "/" + name + ".", ext, query);
    }
    LastSegmentHasDot(prefix, name, tail);
    LastDotSegment(prefix + "/" + name, tail);
    QueryCut(ext, query);
    LowerIdentity(ext);
  }

  /** The url's extension is used once it is known to be allowed. */
  lemma InferredWhenAllowed(url: string, ext: string, default: string, allowed: set<string>)
    requires '.' in AfterLast(url, '/') && Lower(BeforeFirst(AfterLast(url, '.'), '?')) == ext && ext in allowed
    ensures InferExtension(url, default, allowed) == ext
  {
  }

  /** The last `/`-segment of `prefix/name.rest` is `name.rest`. */
  lemma LastSegmentHasDot(prefix: string, name: string, rest: string)
    requires '/' !in name && '/' !in rest
    ensures '.' in AfterLast(prefix + "/" + name + "." + rest, '/')
  {
    var tail := name + "." + rest;
    assert '/' !in tail;
    ConcatAssoc(prefix + "/", name, ".");
    ConcatAssoc(prefix + "/", name + ".", rest);
    ConcatAssoc(prefix, "/", tail);
    AfterLastOfJoin(prefix, '/', tail);
    assert tail[|name|] == '.';
  }

  /** The text after the last dot of `head.rest` is `rest` when `rest` has
      no dot. */
  lemma LastDotSegment(head: string, rest: string)
    requires '.' !in rest
    ensures AfterLast(head + "." + rest, '.') == rest
  {
    assert head + "." + rest == head + ['.'] + rest;
    AfterLastOfJoin(head, '.', rest);
  }

  /** Cutting `ext?query` at the first `?` leaves `ext`. */
  lemma QueryCut(ext: string, query: string)
    requires '?' !in ext
    requires query == [] || query[0] == '?'
    ensures BeforeFirst(ext + query, '?') == ext
  {
    if query != [] {
      assert (ext + query)[|ext|] == '?';
      assert (ext + query)[..|ext|] == ext;
      assert Find(ext + query, '?') == |ext|;
    } else {
      assert ext + query == ext;
    }
  }

  /** The extension for each media type `download_media` accepts: images
      and videos take the extension inferred from the url, falling back to
      "jpg" and "mp4"; voice records are always "mp3". Every extension is
      one of the types the downloader knows. */
  function MediaExtension(kind: string, url: string): (r: string)
    ensures kind == "image" ==> r in ImageTypes && r == InferExtension(url, "jpg", ImageTypes)
    ensures kind == "video" ==> r in VideoTypes && r == InferExtension(url, "mp4", VideoTypes)
    ensures kind == "record" ==> r == "mp3"
    ensures kind == "image" && '.' !in AfterLast(url, '/') ==> r == "jpg"
    ensures kind == "video" && '.' !in AfterLast(url, '/') ==> r == "mp4"
  {
    if kind == "image" then InferExtension(url, "jpg", ImageTypes)
    else if kind == "video" then InferExtension(url, "mp4", VideoTypes)
    else "mp3"
  }

  /** How the transfer ended: it raised (a network error, a bad status),
      or it returned the byte count it wrote, after which the file is
      looked at on disk. */
  datatype Transfer =
    | Failed
    | Done(downloaded: nat, onDisk: bool, actualSize: nat)

  /** `os.path.join(temp_dir, f"{uuid}.{file_type}")`. */
  function FilePath(name: string, fileType: string): string {
    TempDir + "/" + name + "." + fileType
  }

  /** An image or video url naming a file `name.ext` of an allowed
      lower-case type, with or without a query, gets that extension. */
  lemma MediaExtensionOfFileName(kind: string, prefix: string, name: string, ext: string, query: string)
    requires (kind == "image" && ext in ImageTypes) || (kind == "video" && ext in VideoTypes)
    requires forall i :: 0 <= i < |ext| ==> !('A' <= ext[i] <= 'Z')
    requires '/' !in name && '/' !in query && '.' !in query
    requires query == [] || query[0] == '?'
    ensures MediaExtension(kind, prefix + "/" + name + "." + ext + query) == ext
  {
    assert '/' !in ext && '.' !in ext && '?' !in ext by {
      assert forall i :: 0 <= i < |ext| ==> ext[i] != '/' && ext[i] != '.' && ext[i] != '?' by {
        if kind == "image" {
          assert ext in ImageTypes;
        } else {
          assert ext in VideoTypes;
        }
      }
    }
    if kind == "image" {
      ExtensionOfFileName(prefix, name, ext, query, "jpg", ImageTypes);
    } else {
      ExtensionOfFileName(prefix, name, ext, query, "mp4", VideoTypes);
    }
  }

  /** `download_file`: an empty url gives ""; otherwise the file's path when
      the file exists and is not empty, even if its size differs from the
      byte count the transfer reported, and "" in every other case. */
  function DownloadFile(url: string, fileType: string, name: string, transfer: Transfer): (r: string)
    ensures r != "" <==> url != "" && transfer.Done? && transfer.onDisk && transfer.actualSize > 0
    ensures r != "" ==> r == FilePath(name, fileType)
  {
    if url == "" then ""
    else
      match transfer
      case Failed => ""
      case Done(downloaded, onDisk, actualSize) =>
        if onDisk then
          if actualSize > 0 then
            if actualSize == downloaded then FilePath(name, fileType) else FilePath(name, fileType)
          else ""
        else ""
  }

  /** A file that does not match the reported count is still handed on. */
  lemma SizeMismatchStillReturned(url: string, fileType: string, name: string, downloaded: nat, actual: nat)
    requires url != "" && actual > 0 && actual != downloaded
    ensures DownloadFile(url, fileType, name, Done(downloaded, true, actual)) == FilePath(name, fileType)
  {
  }

  /** The path a download returns ends in the chosen extension. */
  lemma {:induction false} PathEndsInExtension(name: string, fileType: string)
    requires '.' !in fileType
    ensures AfterLast(FilePath(name, fileType), '.') == fileType
  {
    assert FilePath(name, fileType) == (TempDir + "/" + name) + ['.'] + fileType;
    AfterLastOfJoin(TempDir + "/" + name, '.', fileType);
  }

  /** `download_media(media_info)`: the type and url come from the info
      dict; a falsy url gives ""; a truthy url that is not a string makes
      the download raise, which is caught and gives ""; images, videos and
      voice records are downloaded with their extension; any other type
      gives "". */
  function DownloadMedia(info: map<string, Json>, name: string, transfer: Transfer): (r: string)
    ensures var kind := GetOr(info, "type", Str(""));
            var url := GetOr(info, "url", Str(""));
            r != "" <==>
              && kind in {Str("image"), Str("video"), Str("record")}
              && url.Str? && url.sval != ""
              && transfer.Done? && transfer.onDisk && transfer.actualSize > 0
    ensures r != "" ==>
              r == FilePath(name, MediaExtension(GetOr(info, "type", Str("")).sval, GetOr(info, "url", Str("")).sval))
  {
    var kind := GetOr(info, "type", Str(""));
    var url := GetOr(info, "url", Str(""));
    if !Truthy(url) then ""
    else if !url.Str? then ""
    else if kind == Str("image") then DownloadFile(url.sval, InferExtension(url.sval, "jpg", ImageTypes), name, transfer)
    else if kind == Str("video") then DownloadFile(url.sval, InferExtension(url.sval, "mp4", VideoTypes), name, transfer)
    else if kind == Str("record") then DownloadFile(url.sval, "mp3", name, transfer)
    else ""
  }
}
