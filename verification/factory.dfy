/** Input classification and dispatch (kb/processors/factory.py): an
    existing file first, then a bare URL, then a URL inside free text,
    then plain text. The URL regular expressions, the filesystem, the web
    and the file readers are inputs. */
module Factory {
  import opened Outcomes
  import opened Strings
  import opened Content
  import opened Files
  import Link
  import TextProcessor
  import Paths

  /** The two URL regular expressions: `URL_PATTERN.match` on a whole
      string, and `URL_FINDER_PATTERN.findall`'s raw matches in order. */
  datatype UrlRegex = UrlRegex(isUrl: string -> bool, findAll: string -> seq<string>)

  /** The web: the response and the extracted page facts for a fetched URL. */
  datatype Web = Web(fetch: string -> Link.Response, facts: string -> Link.PageFacts)

  datatype DispatchError =
    | UnsupportedFile(suffix: string, name: string, supported: string)
    | FileFailed(fileError: FileError)
    | LinkFailed(linkError: Link.LinkError)

  /** `_is_file_path`: the expanded path when the cleaned input looks like
      a path and names an existing regular file. */
  function IsFilePath(input: string, fs: FileSystem): (r: Option<string>)
    ensures IsHttp(CleanPath(input)) ==> r.None?
    ensures r.Some? ==> r.value == fs.expand(CleanPath(input))
                        && fs.present(r.value) && fs.isFile(r.value)
                        && (StartsWith(CleanPath(input), "~") || '/' in CleanPath(input))
    ensures var c := CleanPath(input);
            !IsHttp(c) && (StartsWith(c, "~") || '/' in c)
            && fs.present(fs.expand(c)) && fs.isFile(fs.expand(c))
            ==> r == Some(fs.expand(c))
  {
    var c := CleanPath(input);
    if IsHttp(c) then None
    else if !(StartsWith(c, "/") || StartsWith(c, "~") || StartsWith(c, "./") || '/' in c) then None
    else
      var p := fs.expand(c);
      SlashPrefix(c);
      if fs.present(p) && fs.isFile(p) then Some(p) else None
  }

  lemma SlashPrefix(c: string)
    ensures StartsWith(c, "/") || StartsWith(c, "./") ==> '/' in c
  {
    if StartsWith(c, "/") || StartsWith(c, "./") {
      assert c[0] == '/' || c[1] == '/';
    }
  }

  /** A path `_is_file_path` accepts passes `can_process` exactly when its
      suffix is in the table, so the unsupported-file error can only be
      about the suffix. */
  lemma AcceptedFileCanProcess(input: string, fs: FileSystem)
    requires IsFilePath(input, fs).Some?
    ensures FileCanProcess(input, fs) <==> KindOfPath(IsFilePath(input, fs).value).Some?
  {
    PathLikeShape(CleanPath(input));
  }

  /** `fetch` and process one URL with the link extractor, building the
      record as written or with the date accepted. */
  function FetchAndProcess(url: string, web: Web, build: Link.Build): Result<ProcessedContent, Link.LinkError> {
    var target := Link.NormalizeArxivUrl(Strip(url)).0;
    if build == Link.AsWritten then Link.LinkProcessAsWritten(url, web.fetch(target), web.facts(target))
    else Link.LinkProcess(url, web.fetch(target), web.facts(target))
  }

  /** The first URL found in the text, after harvesting. */
  function FirstUrl(input: string, rx: UrlRegex): (r: Option<string>)
    ensures r.None? <==> |rx.findAll(input)| == 0
    ensures r.Some? ==> r.value == Link.TrimUrl(rx.findAll(input)[0])
  {
    var urls := Link.ExtractUrls(rx.findAll(input));
    if |urls| == 0 then None else Some(urls[0])
  }

  /** The text around an embedded URL: every occurrence removed, trimmed. */
  function ExtraText(input: string, url: string): string {
    Strip(ReplaceAll(input, url, ""))
  }

  /** Putting the surrounding text in front of the fetched body. */
  function Splice(extra: string, c: ProcessedContent): (r: ProcessedContent)
    ensures extra == "" ==> r == c
    ensures extra != "" ==> r == c.(content := extra + "\n\n" + c.content)
  {
    if extra != "" then c.(content := extra + "\n\n" + c.content) else c
  }

  /** Which branch of `detect_and_process` an input takes. */
  datatype Route = ToFile | ToUnsupported | ToLink | ToEmbedded(url: string) | ToText

  function RouteOf(input: string, fs: FileSystem, rx: UrlRegex): (r: Route)
    ensures r == ToFile || r == ToUnsupported <==> IsFilePath(Strip(input), fs).Some?
    ensures r == ToFile <==> IsFilePath(Strip(input), fs).Some? && FileCanProcess(Strip(input), fs)
    ensures r == ToLink <==> IsFilePath(Strip(input), fs).None? && rx.isUrl(Strip(input))
    ensures r.ToEmbedded? ==> IsFilePath(Strip(input), fs).None? && !rx.isUrl(Strip(input))
                              && |rx.findAll(Strip(input))| > 0
                              && r.url == Link.TrimUrl(rx.findAll(Strip(input))[0])
    ensures r == ToText <==> IsFilePath(Strip(input), fs).None? && !rx.isUrl(Strip(input))
                             && |rx.findAll(Strip(input))| == 0
  {
    StripIdempotent(input);
    var s := Strip(input);
    if IsFilePath(s, fs).Some? then
      (if FileCanProcess(s, fs) then ToFile else ToUnsupported)
    else if rx.isUrl(Strip(s)) then ToLink
    else match FirstUrl(s, rx)
      case Some(u) => ToEmbedded(u)
      case None => ToText
  }

  /** `detect_and_process` */
  function DetectAndProcess(input: string, fs: FileSystem, facts: FileFacts, rx: UrlRegex, web: Web, build: Link.Build)
    : (r: Result<ProcessedContent, DispatchError>)
    ensures RouteOf(input, fs, rx) == ToUnsupported ==>
              var p := IsFilePath(Strip(input), fs).value;
              r == Failure(UnsupportedFile(Lower(Paths.Suffix(p)), Paths.Name(p), SupportedList()))
    ensures RouteOf(input, fs, rx) == ToFile ==>
              (r.Success? <==> FileProcess(Strip(input), fs, facts).Success?)
              && (r.Success? ==> r.value == FileProcess(Strip(input), fs, facts).value)
    ensures RouteOf(input, fs, rx) == ToLink ==>
              (r.Success? <==> FetchAndProcess(Strip(input), web, build).Success?)
              && (r.Success? ==> r.value == FetchAndProcess(Strip(input), web, build).value)
    ensures RouteOf(input, fs, rx).ToEmbedded? ==>
              var u := RouteOf(input, fs, rx).url;
              (r.Success? <==> FetchAndProcess(u, web, build).Success?)
              && (r.Success? ==> r.value == Splice(ExtraText(Strip(input), u), FetchAndProcess(u, web, build).value))
    ensures RouteOf(input, fs, rx) == ToText ==> r == Success(TextProcessor.TextProcess(Strip(input)))
  {
    var s := Strip(input);
    match RouteOf(input, fs, rx)
    case ToFile =>
      (match FileProcess(s, fs, facts)
       case Success(c) => Success(c)
       case Failure(e) => Failure(FileFailed(e)))
    case ToUnsupported =>
      var p := IsFilePath(s, fs).value;
      Failure(UnsupportedFile(Lower(Paths.Suffix(p)), Paths.Name(p), SupportedList()))
    case ToLink =>
      (match FetchAndProcess(s, web, build)
       case Success(c) => Success(c)
       case Failure(e) => Failure(LinkFailed(e)))
    case ToEmbedded(u) =>
      (match FetchAndProcess(u, web, build)
       case Success(c) => Success(Splice(ExtraText(s, u), c))
       case Failure(e) => Failure(LinkFailed(e)))
    case ToText => Success(TextProcessor.TextProcess(s))
  }

  /** An existing regular file never reaches the link or text extractors:
      it is processed or refused. */
  lemma FileIsHardStop(input: string, fs: FileSystem, facts: FileFacts, rx: UrlRegex, web: Web, build: Link.Build)
    requires IsFilePath(Strip(input), fs).Some?
    ensures RouteOf(input, fs, rx) == ToFile || RouteOf(input, fs, rx) == ToUnsupported
    ensures RouteOf(input, fs, rx) == ToUnsupported ==>
              DetectAndProcess(input, fs, facts, rx, web, build).Failure?
              && DetectAndProcess(input, fs, facts, rx, web, build).error.UnsupportedFile?
  {
  }

  /** As written, a message that is one URL to an ordinary HTML page never
      gets through: building the record raises on the date keyword, and the
      user sees the failure. With the date accepted the page is processed. */
  lemma HtmlLinkAsWritten(input: string, fs: FileSystem, facts: FileFacts, rx: UrlRegex, web: Web)
    requires RouteOf(input, fs, rx) == ToLink
    requires var target := Link.NormalizeArxivUrl(Strip(Strip(input))).0;
             Link.PathOf(Strip(input), web.fetch(target)) == Link.Html
    ensures DetectAndProcess(input, fs, facts, rx, web, Link.AsWritten)
         == Failure(LinkFailed(Link.UnexpectedKeyword("publish_date")))
    ensures DetectAndProcess(input, fs, facts, rx, web, Link.Corrected).Success?
  {
  }

  /** The spliced body starts with the surrounding text and ends with the
      fetched body; title and source are the fetched ones. */
  lemma SpliceShape(extra: string, c: ProcessedContent)
    ensures StartsWith(Splice(extra, c).content, extra)
    ensures EndsWith(Splice(extra, c).content, c.content)
    ensures Splice(extra, c).title == c.title && Splice(extra, c).source == c.source
  {
  }

  /** `detect_input_type` */
  function DetectInputType(input: string, fs: FileSystem): (r: string)
    ensures IsHttp(Strip(input)) ==> r == "link"
    ensures r in {"link", "file", "unsupported_file", "text"}
    ensures r == "link" <==> IsHttp(Strip(input))
    ensures r == "text" <==> !IsHttp(Strip(input)) && IsFilePath(Strip(input), fs).None?
  {
    var s := Strip(input);
    if IsHttp(s) then "link"
    else match IsFilePath(s, fs)
      case Some(p) => if KindOfPath(p).Some? then "file" else "unsupported_file"
      case None => "text"
  }

  /** Unescaping spaces keeps a leading scheme. */
  lemma HttpUnescape(s: string)
    requires IsHttp(s)
    ensures IsHttp(ReplaceAll(s, "\\ ", " "))
  {
    var pre := if StartsWith(s, "http://") then "http://" else "https://";
    assert s == pre + s[|pre|..];
    UnescapeKeepsPrefix(pre, s[|pre|..]);
  }

  /** Cleaning a path that starts with a scheme and ends in no space keeps
      the scheme. */
  lemma HttpCleanPath(s: string)
    requires IsHttp(s) && !IsSpace(s[|s| - 1])
    ensures IsHttp(CleanPath(s))
  {
    StripUnchanged(s, IsSpace);
    assert s[0] == 'h';
    assert !Quoted(s);
    HttpUnescape(s);
  }

  /** A stripped input starting with a scheme is not a file path. */
  lemma HttpIsNotFile(input: string, fs: FileSystem)
    requires IsHttp(Strip(input))
    ensures IsFilePath(Strip(input), fs).None?
  {
    HttpCleanPath(Strip(input));
  }

  /** The quick classifier agrees with the dispatcher on files: `file`
      exactly when a file is processed, `unsupported_file` exactly when
      one is refused. */
  lemma DetectInputTypeAgrees(input: string, fs: FileSystem, rx: UrlRegex)
    ensures DetectInputType(input, fs) == "file" <==> RouteOf(input, fs, rx) == ToFile
    ensures DetectInputType(input, fs) == "unsupported_file" <==> RouteOf(input, fs, rx) == ToUnsupported
  {
    var s := Strip(input);
    if IsHttp(s) {
      HttpIsNotFile(input, fs);
    }
    if IsFilePath(s, fs).Some? {
      AcceptedFileCanProcess(s, fs);
    }
  }
}
