/** The local-file extractor (kb/processors/file.py): the drag-and-drop
    path cleanup, the extension table, the `can_process` test, and how a
    file becomes a record. The filesystem and the PDF and image readers
    are inputs. */
module Files {
  import opened Outcomes
  import opened Strings
  import opened Content
  import Paths

  /** The filesystem as seen through `pathlib`. `expand` is
      `str(Path(p).expanduser())`, `resolve` is `str(Path(p).resolve())`, `present` is `exists()`. */
  datatype FileSystem = FileSystem(
    expand: string -> string,
    resolve: string -> string,
    present: string -> bool,
    isFile: string -> bool,
    read: string -> seq<bv8>)

  // ---------------------------------------------------------------------
  // Path cleanup

  predicate Quoted(s: string) {
    (StartsWith(s, "'") && EndsWith(s, "'")) || (StartsWith(s, "\"") && EndsWith(s, "\""))
  }

  /** Being quoted depends only on the first and last characters. */
  lemma QuotedEnds(s: string)
    ensures Quoted(s) <==> |s| > 0 && (s[0] == '\'' || s[0] == '"') && s[|s| - 1] == s[0]
  {
    if |s| > 0 {
      assert StartsWith(s, [s[0]]) && EndsWith(s, [s[|s| - 1]]);
    }
  }

  /** Unquoting removes exactly the two outer characters, or leaves
      nothing of a lone quote, and adds no backslash. */
  lemma UnquoteShape(s: string)
    ensures Quoted(s) ==>
              && ((|s| == 1 && Unquote(s) == "") || (|s| >= 2 && s == [s[0]] + Unquote(s) + [s[0]]))
              && (NoBackslash(s) ==> NoBackslash(Unquote(s)))
  {
    QuotedEnds(s);
    if Quoted(s) && |s| >= 2 {
      assert s == [s[0]] + s[1..|s| - 1] + [s[|s| - 1]];
    }
  }

  /** `s[1:-1]`, which is empty for a one-character string. */
  function Unquote(s: string): (r: string)
    requires |s| > 0
    ensures |s| >= 2 ==> r == s[1..|s| - 1]
    ensures |s| < 2 ==> r == ""
  {
    if |s| < 2 then "" else s[1..|s| - 1]
  }

  /** `_clean_path` (repeated inline in `FileProcessor`): trim, drop one
      pair of matching outer quotes, turn `\ ` into a space. The result is
      never longer than the trimmed input, and a path without backslashes
      is only trimmed and unquoted. */
  function CleanPath(input: string): (r: string)
    ensures |r| <= |Strip(input)|
    ensures NoBackslash(Strip(input)) && !Quoted(Strip(input)) ==> r == Strip(input)
    ensures NoBackslash(Strip(input)) && Quoted(Strip(input)) ==>
              (|Strip(input)| == 1 && r == "")
              || (|r| + 2 == |Strip(input)| && Strip(input) == [Strip(input)[0]] + r + [Strip(input)[0]])
  {
    var s := Strip(input);
    var s1 := if Quoted(s) then Unquote(s) else s;
    UnquoteShape(s);
    ReplaceNoLonger(s1, "\\ ", " ");
    UnescapePlain(s1);
    ReplaceAll(s1, "\\ ", " ")
  }

  predicate NoBackslash(s: string) {
    forall i :: 0 <= i < |s| ==> s[i] != '\\'
  }

  /** Without backslashes there is nothing to unescape. */
  lemma UnescapePlain(s: string)
    ensures NoBackslash(s) ==> ReplaceAll(s, "\\ ", " ") == s
  {
    if NoBackslash(s) {
      NotContainsFirstChar(s, "\\ ");
      ReplaceAbsent(s, "\\ ", " ");
    }
  }

  /** How a terminal writes a dropped path: each space behind a backslash. */
  function EscapeSpaces(p: string): (r: string)
    ensures |r| >= |p|
  {
    if |p| == 0 then "" else (if p[0] == ' ' then "\\ " else [p[0]]) + EscapeSpaces(p[1..])
  }

  lemma {:induction false} EscapeSpacesAppend(a: string, b: string)
    ensures EscapeSpaces(a + b) == EscapeSpaces(a) + EscapeSpaces(b)
    decreases |a|
  {
    if |a| == 0 {
      assert a + b == b;
    } else {
      assert (a + b)[1..] == a[1..] + b;
      assert (a + b)[0] == a[0];
      EscapeSpacesAppend(a[1..], b);
    }
  }

  /** Turning `\ ` back into a space undoes the escaping of a path that
      holds no backslash of its own. */
  lemma {:induction false} UnescapeEscapeSpaces(p: string)
    requires NoBackslash(p)
    ensures ReplaceAll(EscapeSpaces(p), "\\ ", " ") == p
    decreases |p|
  {
    if |p| > 0 {
      UnescapeEscapeSpaces(p[1..]);
      var rest := EscapeSpaces(p[1..]);
      if p[0] == ' ' {
        ReplaceAtStart("\\ ", rest, " ");
      } else {
        var s := [p[0]] + rest;
        assert EscapeSpaces(p) == s;
        assert s[1..] == rest;
        if |s| >= 2 {
          assert s[..2][0] == p[0];
        } else {
          assert rest == "";
        }
      }
      assert p == [p[0]] + p[1..];
    }
  }

  /** A path dropped with its spaces escaped comes back as it was. */
  lemma CleanPathEscaped(p: string)
    requires NoBackslash(p) && !Quoted(p)
    requires |p| > 0 && !IsSpace(p[0]) && !IsSpace(p[|p| - 1])
    ensures CleanPath(EscapeSpaces(p)) == p
  {
    var e := EscapeSpaces(p);
    EscapeSpacesEnds(p);
    StripUnchanged(e, IsSpace);
    QuotedEnds(e);
    QuotedEnds(p);
    UnescapeEscapeSpaces(p);
    assert CleanPath(e) == ReplaceAll(e, "\\ ", " ");
  }

  /** Escaping keeps a first and last character that are not spaces. */
  lemma EscapeSpacesEnds(p: string)
    requires |p| > 0 && p[0] != ' ' && p[|p| - 1] != ' '
    ensures var e := EscapeSpaces(p); |e| > 0 && e[0] == p[0] && e[|e| - 1] == p[|p| - 1]
  {
    var init := p[..|p| - 1];
    var last := p[|p| - 1];
    assert p == init + [last];
    EscapeSpacesAppend(init, [last]);
    assert EscapeSpaces([last]) == [last];
    assert p == [p[0]] + p[1..];
  }

  /** A path dropped inside quotes comes back as it was. */
  lemma CleanPathQuoted(p: string, q: char)
    requires NoBackslash(p)
    requires q == '\'' || q == '"'
    ensures CleanPath([q] + p + [q]) == p
  {
    var quoted := [q] + p + [q];
    StripUnchanged(quoted, IsSpace);
    assert Strip(quoted) == quoted;
    QuotedEnds(quoted);
    assert quoted[1..|quoted| - 1] == p;
    assert Unquote(quoted) == p;
    UnescapePlain(p);
    assert CleanPath(quoted) == ReplaceAll(Unquote(quoted), "\\ ", " ");
  }

  /** The unescape step cannot touch a leading scheme. */
  lemma UnescapeKeepsPrefix(pre: string, rest: string)
    requires forall i :: 0 <= i < |pre| ==> pre[i] != '\\'
    ensures StartsWith(ReplaceAll(pre + rest, "\\ ", " "), pre)
  {
    forall i | 0 <= i < |pre| ensures !StartsWith(pre[i..] + rest, "\\ ") {
      assert (pre[i..] + rest)[0] == pre[i];
    }
    ReplaceSkipsPrefix(pre, rest, "\\ ", " ");
  }

  // ---------------------------------------------------------------------
  // Extension table

  /** `SUPPORTED_EXTENSIONS`, in declaration order. */
  const SupportedExtensions: seq<(string, ContentType)> := [
    (".pdf", Pdf),
    (".jpg", Image),
    (".jpeg", Image),
    (".png", Image),
    (".gif", Image),
    (".webp", Image),
    (".bmp", Image)
  ]

  /** A dictionary lookup on a table with distinct keys. */
  function TableGet(t: seq<(string, ContentType)>, key: string): (r: Option<ContentType>)
    ensures r.Some? <==> exists i :: 0 <= i < |t| && t[i].0 == key
    ensures r.Some? ==> exists i :: 0 <= i < |t| && t[i] == (key, r.value)
  {
    if |t| == 0 then None
    else if t[0].0 == key then Some(t[0].1)
    else
      var r := TableGet(t[1..], key);
      assert forall i :: 1 <= i < |t| ==> t[i] == t[1..][i - 1];
      r
  }

  /** `SUPPORTED_EXTENSIONS.get(suffix)` */
  function ExtensionKind(suffix: string): (r: Option<ContentType>)
    ensures r == Some(Pdf) <==> suffix == ".pdf"
    ensures r == Some(Image) <==> suffix in {".jpg", ".jpeg", ".png", ".gif", ".webp", ".bmp"}
    ensures r.Some? ==> r.value == Pdf || r.value == Image
  {
    ExtensionTable(suffix);
    TableGet(SupportedExtensions, suffix)
  }

  /** `.pdf` names a PDF; the six image suffixes name an image; nothing
      else is in the table. */
  lemma ExtensionTable(suffix: string)
    ensures TableGet(SupportedExtensions, suffix) ==
              if suffix == ".pdf" then Some(Pdf)
              else if suffix in {".jpg", ".jpeg", ".png", ".gif", ".webp", ".bmp"} then Some(Image)
              else None
  {
  }

  /** The kind a path's suffix names, compared case-insensitively. */
  function KindOfPath(p: string): (r: Option<ContentType>)
    ensures r == Some(Pdf) <==> Lower(Paths.Suffix(p)) == ".pdf"
    ensures r == Some(Image) <==> Lower(Paths.Suffix(p)) in {".jpg", ".jpeg", ".png", ".gif", ".webp", ".bmp"}
    ensures r.Some? ==> r.value == Pdf || r.value == Image
  {
    ExtensionKind(Lower(Paths.Suffix(p)))
  }

  /** `SUPPORTED_EXTENSIONS.keys()` */
  function SupportedKeys(): (r: seq<string>)
    ensures |r| == |SupportedExtensions|
    ensures forall i :: 0 <= i < |r| ==> r[i] == SupportedExtensions[i].0
  {
    seq(|SupportedExtensions|, i requires 0 <= i < |SupportedExtensions| => SupportedExtensions[i].0)
  }

  /** `", ".join(SUPPORTED_EXTENSIONS.keys())`, quoted in the unsupported-file error. */
  function SupportedList(): string {
    Join(SupportedKeys(), ", ")
  }

  // ---------------------------------------------------------------------
  // can_process

  predicate IsHttp(s: string) {
    StartsWith(s, "http://") || StartsWith(s, "https://")
  }

  /** The "looks like a path" test of `can_process`. */
  predicate PathLike(c: string) {
    StartsWith(c, "/") || StartsWith(c, "~") || StartsWith(c, "./") || '/' in c || '\\' in c
  }

  /** A path-like string holds a separator or starts with `~`. */
  lemma PathLikeShape(c: string)
    ensures PathLike(c) <==> '/' in c || '\\' in c || StartsWith(c, "~")
  {
    if StartsWith(c, "/") || StartsWith(c, "./") {
      assert c[0] == '/' || c[1] == '/';
    }
  }

  /** `FileProcessor.can_process` */
  function FileCanProcess(input: string, fs: FileSystem): (r: bool)
    ensures r ==> !IsHttp(CleanPath(input))
    ensures r ==> fs.present(fs.expand(CleanPath(input)))
    ensures r ==> KindOfPath(fs.expand(CleanPath(input))).Some?
    ensures r ==> PathLike(CleanPath(input))
  {
    var c := CleanPath(input);
    if IsHttp(c) then false
    else if !PathLike(c) then false
    else
      var p := fs.expand(c);
      fs.present(p) && KindOfPath(p).Some?
  }

  // ---------------------------------------------------------------------
  // process

  /** What `pypdf` reads: the `/Title` entry (empty when missing) and the
      text of each page (empty when a page yields none). */
  datatype PdfFacts = PdfFacts(title: string, pages: seq<string>)

  /** What PIL reads: the format name (empty when unknown) and the size. */
  datatype ImageFacts = ImageFacts(format: string, width: nat, height: nat)

  /** Everything the file extractor learns from libraries. */
  datatype FileFacts = FileFacts(pdf: PdfFacts, image: ImageFacts, mime: Option<string>)

  datatype FileError = FileNotFound(path: string)

  /** The page texts that are non-empty, in order. */
  function NonEmpty(parts: seq<string>): (r: seq<string>)
    ensures forall i :: 0 <= i < |r| ==> r[i] != ""
    ensures |r| <= |parts|
    ensures |r| == 0 <==> forall i :: 0 <= i < |parts| ==> parts[i] == ""
  {
    if |parts| == 0 then []
    else if parts[|parts| - 1] == "" then NonEmpty(parts[..|parts| - 1])
    else NonEmpty(parts[..|parts| - 1]) + [parts[|parts| - 1]]
  }

  /** The body `_process_pdf` builds: non-empty page texts joined by a blank line. */
  function PdfText(pages: seq<string>): (r: string)
    ensures r == "" <==> forall i :: 0 <= i < |pages| ==> pages[i] == ""
  {
    JoinNonEmpty(NonEmpty(pages), "\n\n");
    Join(NonEmpty(pages), "\n\n")
  }

  lemma JoinNonEmpty(parts: seq<string>, sep: string)
    requires forall i :: 0 <= i < |parts| ==> parts[i] != ""
    ensures Join(parts, sep) == "" <==> |parts| == 0
  {
    if |parts| > 1 {
      JoinNonEmpty(parts[1..], sep);
    }
  }

  /** Reading one more page: an empty page adds nothing; otherwise its
      text follows the earlier text after a blank line, or stands alone
      when there was none. */
  lemma PdfTextAppend(pages: seq<string>, page: string)
    ensures page == "" ==> PdfText(pages + [page]) == PdfText(pages)
    ensures page != "" && PdfText(pages) == "" ==> PdfText(pages + [page]) == page
    ensures page != "" && PdfText(pages) != "" ==>
              PdfText(pages + [page]) == PdfText(pages) + "\n\n" + page
  {
    assert (pages + [page])[..|pages|] == pages;
    JoinNonEmpty(NonEmpty(pages), "\n\n");
    if page != "" && PdfText(pages) != "" {
      JoinAppend(NonEmpty(pages), page, "\n\n");
    }
  }

  /** No page text at all gives an empty body. */
  lemma {:induction false} PdfTextOfEmptyPages(pages: seq<string>)
    requires forall i :: 0 <= i < |pages| ==> pages[i] == ""
    ensures PdfText(pages) == ""
  {
    if |pages| > 0 {
      PdfTextOfEmptyPages(pages[..|pages| - 1]);
    }
  }

  /** The format `_process_image` reports: PIL's, else the suffix in upper
      case without its dot. */
  function ImageFormat(p: string, img: ImageFacts): (r: string)
    ensures img.format != "" ==> r == img.format
    ensures img.format == "" ==> '.' !in r
  {
    if img.format != "" then img.format else Without(Upper(Paths.Suffix(p)), '.')
  }

  /** The three lines of the body `_process_image` builds. */
  function ImageLines(name: string, format: string, w: nat, h: nat): seq<string> {
    ["Image: " + name, "Format: " + format, "Size: " + NatToString(w) + "x" + NatToString(h) + " pixels"]
  }

  /** The body `_process_image` builds. */
  function ImageDescription(name: string, format: string, w: nat, h: nat): (r: string)
    ensures '\n' !in name && '\n' !in format ==> Split(r, '\n') == ImageLines(name, format, w, h)
  {
    ImageLinesSplit(name, format, w, h);
    Join(ImageLines(name, format, w, h), "\n")
  }

  /** Splitting the joined lines at newlines gives them back when the name
      and the format hold no newline. */
  lemma ImageLinesSplit(name: string, format: string, w: nat, h: nat)
    ensures '\n' !in name && '\n' !in format ==>
              Split(Join(ImageLines(name, format, w, h), "\n"), '\n') == ImageLines(name, format, w, h)
  {
    if '\n' !in name && '\n' !in format {
      var lines := ImageLines(name, format, w, h);
      forall i | 0 <= i < |lines| ensures '\n' !in lines[i] {
        if i == 2 {
          assert forall j :: 0 <= j < |NatToString(w)| ==> NatToString(w)[j] != '\n';
          assert forall j :: 0 <= j < |NatToString(h)| ==> NatToString(h)[j] != '\n';
        }
      }
      SplitJoin(lines, '\n');
    }
  }

  /** The description reads back line by line: the name, the format and
      the two dimensions can be recovered from it. */
  lemma ImageDescriptionLines(name: string, format: string, w: nat, h: nat)
    requires '\n' !in name && '\n' !in format
    ensures Split(ImageDescription(name, format, w, h), '\n') == ImageLines(name, format, w, h)
    ensures DigitsValue(NatToString(w)) == w && DigitsValue(NatToString(h)) == h
  {
    NatToStringValue(w);
    NatToStringValue(h);
  }

  /** The longest body kept. */
  const MaxBody: nat := 10000

  /** The body and title a file kind yields before the stem fallback. */
  function KindText(kind: ContentType, p: string, facts: FileFacts): (string, string) {
    match kind
    case Pdf => (PdfText(facts.pdf.pages), facts.pdf.title)
    case Image =>
      (ImageDescription(Paths.Name(p), ImageFormat(p, facts.image), facts.image.width, facts.image.height),
       Paths.Stem(p))
    case _ => ("", Paths.Stem(p))
  }

  /** The path `process` reads. */
  function ResolvedPath(input: string, fs: FileSystem): string {
    fs.resolve(fs.expand(CleanPath(input)))
  }

  /** `FileProcessor.process` */
  function FileProcess(input: string, fs: FileSystem, facts: FileFacts): (r: Result<ProcessedContent, FileError>)
    ensures r.Failure? <==> !fs.present(ResolvedPath(input, fs))
    ensures r.Failure? ==> r.error == FileNotFound(ResolvedPath(input, fs))
    ensures r.Success? ==>
              var p := ResolvedPath(input, fs);
              && r.value.source == p
              && r.value.filePath == Some(p)
              && r.value.contentType == KindOfPath(p).GetOr(File)
              && r.value.fileSize == Some(|fs.read(p)|)
              && r.value.rawData == Some(fs.read(p))
              && r.value.mimeType == facts.mime
              && |r.value.content| <= MaxBody
              && (r.value.title != "" || Paths.Stem(p) == "")
              && r.value.tags == []
  {
    var p := ResolvedPath(input, fs);
    if !fs.present(p) then Failure(FileNotFound(p))
    else
      var kind := KindOfPath(p).GetOr(File);
      var raw := fs.read(p);
      var (content, title) := KindText(kind, p, facts);
      Success(ProcessedContent(kind, if title != "" then title else Paths.Stem(p), p, Take(content, MaxBody),
                               None, [], None, None, Some(p), Some(|raw|), facts.mime, None, Some(raw), None))
  }

  /** A file whose suffix is not in the table is kept as a plain file with
      an empty body and its stem as title. */
  lemma UnknownSuffixFile(input: string, fs: FileSystem, facts: FileFacts)
    requires fs.present(ResolvedPath(input, fs))
    requires KindOfPath(ResolvedPath(input, fs)).None?
    ensures FileProcess(input, fs, facts).Success?
    ensures FileProcess(input, fs, facts).value.contentType == File
    ensures FileProcess(input, fs, facts).value.content == ""
    ensures FileProcess(input, fs, facts).value.title == Paths.Stem(ResolvedPath(input, fs))
  {
  }

  /** A PDF keeps its metadata title when it has one, else the stem, and
      its body is the first 10000 characters of the joined pages. */
  lemma PdfFile(input: string, fs: FileSystem, facts: FileFacts)
    requires fs.present(ResolvedPath(input, fs))
    requires KindOfPath(ResolvedPath(input, fs)) == Some(Pdf)
    ensures FileProcess(input, fs, facts).Success?
    ensures FileProcess(input, fs, facts).value.title ==
              (if facts.pdf.title != "" then facts.pdf.title else Paths.Stem(ResolvedPath(input, fs)))
    ensures FileProcess(input, fs, facts).value.content == Take(PdfText(facts.pdf.pages), MaxBody)
  {
    var p := ResolvedPath(input, fs);
    assert KindOfPath(p).GetOr(File) == Pdf;
    assert KindText(Pdf, p, facts) == (PdfText(facts.pdf.pages), facts.pdf.title);
  }

  /** An image is titled by its stem and described by name, format and size. */
  lemma ImageFile(input: string, fs: FileSystem, facts: FileFacts)
    requires fs.present(ResolvedPath(input, fs))
    requires KindOfPath(ResolvedPath(input, fs)) == Some(Image)
    ensures FileProcess(input, fs, facts).Success?
    ensures FileProcess(input, fs, facts).value.title == Paths.Stem(ResolvedPath(input, fs))
    ensures var p := ResolvedPath(input, fs);
            FileProcess(input, fs, facts).value.content ==
              Take(ImageDescription(Paths.Name(p), ImageFormat(p, facts.image),
                                    facts.image.width, facts.image.height), MaxBody)
  {
    var p := ResolvedPath(input, fs);
    var d := ImageDescription(Paths.Name(p), ImageFormat(p, facts.image), facts.image.width, facts.image.height);
    assert KindText(Image, p, facts) == (d, Paths.Stem(p));
    FileProcessBody(input, fs, facts);
  }

  /** A present file's record holds the body and title its kind yields,
      the body clipped and an empty title replaced by the stem. */
  lemma FileProcessBody(input: string, fs: FileSystem, facts: FileFacts)
    requires fs.present(ResolvedPath(input, fs))
    ensures var p := ResolvedPath(input, fs);
            var (content, title) := KindText(KindOfPath(p).GetOr(File), p, facts);
            && FileProcess(input, fs, facts).Success?
            && FileProcess(input, fs, facts).value.content == Take(content, MaxBody)
            && FileProcess(input, fs, facts).value.title == if title != "" then title else Paths.Stem(p)
  {
  }
}
