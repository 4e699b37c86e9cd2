/**
 * The decisions `download_image` makes once the image request has been
 * answered: whether the image is saved, and under which file name inside the
 * session's folder. The request itself and the chunked write are not modelled.
 */
module Download {
  import opened Wrappers
  import opened Text

  /** `os.path.basename(url.split('?')[0])`: the last path segment, query removed. */
  function UrlFileName(url: string): (name: string)
    ensures '?' !in name && '/' !in name
    ensures var path := TakeBefore(url, '?');
      && |name| <= |path| && name == path[|path| - |name|..]
      && (|name| < |path| ==> path[|path| - |name| - 1] == '/')
  {
    AfterLast(TakeBefore(url, '?'), '/')
  }

  /** An image URL `dir + "/" + name + query` names the file `name`. */
  lemma UrlFileNameOf(dir: string, name: string, query: string)
    requires '/' !in name && '?' !in name && '?' !in dir
    requires query == "" || query[0] == '?'
    ensures UrlFileName(dir + "/" + name + query) == name
  {
    assert dir + "/" + name + query == (dir + "/" + name) + query;
    TakeBeforeAt(dir + "/" + name, query, '?');
    AfterLastAt(dir, name, '/');
  }

  /** The extension guessed from the `Content-Type` header (`None`: no such header). */
  function ExtensionFor(contentType: Option<string>): (ext: string)
    ensures ext == ".jpg" || ext == ".png" || ext == ".webp"
    ensures ext == ".png" <==> contentType == Some("image/png")
    ensures ext == ".webp" <==> contentType == Some("image/webp")
  {
    if contentType == Some("image/jpeg") then ".jpg"
    else if contentType == Some("image/png") then ".png"
    else if contentType == Some("image/webp") then ".webp"
    else ".jpg"
  }

  /**
   * The file name an image is saved under: the URL's own when there is one,
   * else `image_<micros><ext>` with `micros` the `%f` field of the clock.
   */
  function FileName(url: string, contentType: Option<string>, micros: string): (name: string)
    ensures name != ""
    ensures UrlFileName(url) != "" ==> name == UrlFileName(url)
    ensures UrlFileName(url) == "" ==> name == "image_" + micros + ExtensionFor(contentType)
  {
    var derived := UrlFileName(url);
    if derived != "" then derived else "image_" + micros + ExtensionFor(contentType)
  }

  /** A saved image's name never contains a `/` (for a clock field without one). */
  lemma FileNameHasNoSlash(url: string, contentType: Option<string>, micros: string)
    requires '/' !in micros
    ensures '/' !in FileName(url, contentType, micros)
  {
    var ext := ExtensionFor(contentType);
    assert '/' !in ext;
    NoCharInConcat("image_", micros, '/');
    NoCharInConcat("image_" + micros, ext, '/');
  }

  lemma NoCharInConcat(a: string, b: string, c: char)
    requires c !in a && c !in b
    ensures c !in a + b
  {
  }

  /** `os.path.join(folder, name)` of POSIX paths. */
  function JoinPath(folder: string, name: string): (path: string)
    ensures |name| > 0 && name[0] == '/' ==> path == name
    ensures |name| <= |path| && path[|path| - |name|..] == name
    ensures !(|name| > 0 && name[0] == '/') ==> |folder| <= |path| && path[..|folder|] == folder
  {
    if |name| > 0 && name[0] == '/' then name
    else if folder == "" || folder[|folder| - 1] == '/' then folder + name
    else folder + "/" + name
  }

  /** A name without `/` joined to the folder is a file directly inside that folder. */
  lemma JoinPathInFolder(folder: string, name: string)
    requires '/' !in name && name != ""
    ensures AfterLast(JoinPath(folder, name), '/') == name
    ensures |folder| < |JoinPath(folder, name)| && JoinPath(folder, name)[..|folder|] == folder
    ensures JoinPath(folder, name)[|folder|..] ==
      if folder == "" || folder[|folder| - 1] == '/' then name else "/" + name
  {
    var path := JoinPath(folder, name);
    if folder == "" {
      assert path == name;
      AfterLastWhole(name, '/');
    } else if folder[|folder| - 1] == '/' {
      var dir := folder[..|folder| - 1];
      assert folder == dir + "/";
      assert path == dir + "/" + name && path == folder + name;
      assert path[|folder|..] == name;
      AppendAfterSlash(dir, name);
    } else {
      assert path == folder + "/" + name;
      assert path[|folder|..] == "/" + name;
      AppendAfterSlash(folder, name);
    }
  }

  /** The part after the last `/` of `dir + "/" + name`, and its prefix `dir + "/"`. */
  lemma AppendAfterSlash(dir: string, name: string)
    requires '/' !in name && name != ""
    ensures AfterLast(dir + "/" + name, '/') == name
    ensures (dir + "/" + name)[..|dir| + 1] == dir + "/"
  {
    AfterLastAt(dir, name, '/');
    assert dir + ['/'] + name == dir + "/" + name;
  }

  /** The answer to the image request: a status line and header, or a transport failure. */
  datatype ImageResponse =
    | Response(status: int, contentType: Option<string>)
    | NetworkError

  datatype DownloadResult = Saved(path: string) | NotSaved

  /**
   * `download_image(url, save_path)`: only a 200 answer is saved, under
   * `FileName` inside `folder`, and only when `stored`, that is when opening
   * that path for writing and streaming the body into it succeed; every
   * other status, a failed open or body, and every network error return
   * `False`.
   */
  function DownloadImage(url: string, folder: string, response: ImageResponse, micros: string, stored: bool): (r: DownloadResult)
    ensures r.Saved? <==> response.Response? && response.status == 200 && stored
    ensures r.Saved? ==> r.path == JoinPath(folder, FileName(url, response.contentType, micros))
  {
    match response
    case Response(status, contentType) =>
      if status == 200 && stored then Saved(JoinPath(folder, FileName(url, contentType, micros))) else NotSaved
    case NetworkError => NotSaved
  }

  /** A saved image lands directly inside the session folder, under its derived name. */
  lemma SavedInFolder(url: string, folder: string, response: ImageResponse, micros: string, stored: bool)
    requires '/' !in micros
    requires DownloadImage(url, folder, response, micros, stored).Saved?
    ensures var path := DownloadImage(url, folder, response, micros, stored).path;
      && AfterLast(path, '/') == FileName(url, response.contentType, micros)
      && |folder| < |path| && path[..|folder|] == folder
      && path[|folder|..] == if folder == "" || folder[|folder| - 1] == '/'
           then FileName(url, response.contentType, micros)
           else "/" + FileName(url, response.contentType, micros)
  {
    FileNameHasNoSlash(url, response.contentType, micros);
    JoinPathInFolder(folder, FileName(url, response.contentType, micros));
  }
}
