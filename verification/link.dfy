/** The web-page extractor (kb/processors/link.py): URL harvesting from
    free text, the ArXiv PDF-to-abstract rewrite, the ArXiv title and date
    rules, and how a fetched page becomes a record. The HTTP response, the
    article extractor's output and the raw regular-expression captures on
    the page are inputs. */
module Link {
  import opened Outcomes
  import opened Strings
  import opened Seqs
  import opened Content

  // ---------------------------------------------------------------------
  // URL harvesting

  predicate IsTrailingPunct(c: char) {
    c in {'.', ',', ';', ':', '!', '?', ')'}
  }

  /** `url.rstrip('.,;:!?)')` */
  function TrimUrl(u: string): (r: string)
    ensures StartsWith(u, r)
    ensures |r| == 0 || !IsTrailingPunct(r[|r| - 1])
  {
    RStripBy(u, IsTrailingPunct)
  }

  lemma TrimUrlIdempotent(u: string)
    ensures TrimUrl(TrimUrl(u)) == TrimUrl(u)
  {
    var r := TrimUrl(u);
    if |r| > 0 {
      assert r == r[..|r| - 1] + [r[|r| - 1]];
    }
  }

  /** A trailing full stop is trimmed like the rest of the punctuation. */
  lemma TrimUrlDot(u: string)
    ensures TrimUrl(u + ".") == TrimUrl(u)
  {
    var s := u + ".";
    assert s[..|s| - 1] == u;
    assert TrailLen(s, IsTrailingPunct) == 1 + TrailLen(u, IsTrailingPunct);
    assert s[..|s| - TrailLen(s, IsTrailingPunct)] == u[..|u| - TrailLen(u, IsTrailingPunct)];
  }

  /** The trimmed form of every raw match, in order. */
  function TrimAll(matches: seq<string>): (r: seq<string>)
    ensures |r| == |matches|
    ensures forall i :: 0 <= i < |r| ==> r[i] == TrimUrl(matches[i])
  {
    if |matches| == 0 then [] else TrimAll(matches[..|matches| - 1]) + [TrimUrl(matches[|matches| - 1])]
  }

  /** `extract_urls`, given the raw matches of the URL finder in text
      order: trim trailing punctuation, then keep first occurrences. */
  function ExtractUrls(matches: seq<string>): (r: seq<string>)
    ensures NoDup(r)
    ensures forall i :: 0 <= i < |r| ==> r[i] in TrimAll(matches)
    ensures forall j :: 0 <= j < |matches| ==> TrimUrl(matches[j]) in r
    ensures |r| <= |matches|
    ensures |matches| > 0 ==> |r| > 0 && r[0] == TrimUrl(matches[0])
  {
    DedupHead(TrimAll(matches));
    Dedup(TrimAll(matches))
  }

  /** Some match, trimmed, is each harvested URL. */
  lemma ExtractedFrom(matches: seq<string>, i: nat)
    requires i < |ExtractUrls(matches)|
    ensures exists j :: 0 <= j < |matches| && TrimUrl(matches[j]) == ExtractUrls(matches)[i]
  {
    var t := TrimAll(matches);
    var j :| 0 <= j < |t| && t[j] == ExtractUrls(matches)[i];
    assert TrimUrl(matches[j]) == t[j];
  }

  /** A URL with no trailing punctuation left to strip. */
  predicate Trimmed(u: string) {
    |u| == 0 || !IsTrailingPunct(u[|u| - 1])
  }

  /** Each harvested URL is trimmed. */
  lemma ExtractedTrimmed(matches: seq<string>, i: nat)
    requires i < |ExtractUrls(matches)|
    ensures Trimmed(ExtractUrls(matches)[i])
  {
    ExtractedFrom(matches, i);
    var j :| 0 <= j < |matches| && TrimUrl(matches[j]) == ExtractUrls(matches)[i];
    var u := TrimUrl(matches[j]);
    assert Trimmed(u);
  }

  /** No harvested URL ends in trailing punctuation. */
  lemma ExtractUrlsTrimmed(matches: seq<string>)
    ensures var r := ExtractUrls(matches);
            forall i :: 0 <= i < |r| ==> Trimmed(r[i])
  {
    var r := ExtractUrls(matches);
    forall i | 0 <= i < |r| ensures Trimmed(r[i]) {
      ExtractedTrimmed(matches, i);
    }
  }

  /** The URLs come out in the order of their first (trimmed) occurrence. */
  lemma ExtractUrlsOrder(matches: seq<string>)
    ensures forall i, j :: 0 <= i < j < |ExtractUrls(matches)| ==>
              FirstIndex(TrimAll(matches), ExtractUrls(matches)[i])
              < FirstIndex(TrimAll(matches), ExtractUrls(matches)[j])
  {
    DedupOrder(TrimAll(matches));
  }

  /** Harvesting an already harvested list changes nothing. */
  lemma ExtractUrlsIdempotent(matches: seq<string>)
    ensures ExtractUrls(ExtractUrls(matches)) == ExtractUrls(matches)
  {
    var r := ExtractUrls(matches);
    var t := TrimAll(r);
    assert t == r by {
      forall i | 0 <= i < |r| ensures t[i] == r[i] {
        ExtractedFrom(matches, i);
        var j :| 0 <= j < |matches| && TrimUrl(matches[j]) == r[i];
        TrimUrlIdempotent(matches[j]);
      }
    }
    DedupNoDup(r);
  }

  /** The trim cannot reach into a scheme. */
  lemma TrimKeepsScheme(m: string)
    requires StartsWith(m, "http://") || StartsWith(m, "https://")
    ensures StartsWith(TrimUrl(m), "http")
  {
    var k := if StartsWith(m, "http://") then 6 else 7;
    assert m[k] == '/';
    var r := TrimUrl(m);
    assert |r| > k;
    assert r[..4] == m[..4];
  }

  /** The finder's matches all begin with a scheme, so every harvested URL
      begins with `http`. */
  lemma ExtractUrlsKeepScheme(matches: seq<string>)
    requires forall j :: 0 <= j < |matches| ==>
               StartsWith(matches[j], "http://") || StartsWith(matches[j], "https://")
    ensures forall i :: 0 <= i < |ExtractUrls(matches)| ==> StartsWith(ExtractUrls(matches)[i], "http")
  {
    var r := ExtractUrls(matches);
    forall i | 0 <= i < |r| ensures StartsWith(r[i], "http") {
      ExtractedFrom(matches, i);
      var j :| 0 <= j < |matches| && TrimUrl(matches[j]) == r[i];
      TrimKeepsScheme(matches[j]);
    }
  }

  // ---------------------------------------------------------------------
  // ArXiv rules

  /** `_normalize_arxiv_url`: the URL to fetch and the URL as given. */
  function NormalizeArxivUrl(url: string): (r: (string, string))
    ensures r.1 == url
    ensures !Contains(url, "arxiv.org/pdf/") ==> r.0 == url
  {
    if Contains(url, "arxiv.org/pdf/") then
      var u := ReplaceAll(url, "arxiv.org/pdf/", "arxiv.org/abs/");
      (if EndsWith(u, ".pdf") then u[..|u| - 4] else u, url)
    else (url, url)
  }

  /** A PDF link to an ArXiv paper becomes the link to its abstract page,
      whatever scheme and host prefix come before it:
      `https://arxiv.org/pdf/2301.00001.pdf` gives
      `https://arxiv.org/abs/2301.00001`. */
  lemma NormalizeArxivPdf(p: string, id: string)
    requires forall i :: 0 <= i < |p| ==> p[i] != 'a'
    requires forall i :: 0 <= i < |id| ==> id[i] != 'a'
    ensures NormalizeArxivUrl(p + "arxiv.org/pdf/" + id + ".pdf")
         == (p + "arxiv.org/abs/" + id, p + "arxiv.org/pdf/" + id + ".pdf")
  {
    var pat := "arxiv.org/pdf/";
    var abs := "arxiv.org/abs/";
    var rest := id + ".pdf";
    var url := p + (pat + rest);
    assert p + "arxiv.org/pdf/" + id + ".pdf" == url;
    assert url[|p|..] == pat + rest;
    assert StartsWith(url[|p|..], pat);
    ContainsIff(url, pat);
    assert Contains(url, pat);
    PdfPathReplaced(p, rest);
    var u := p + abs + rest;
    assert ReplaceAll(url, pat, abs) == u;
    assert u[|u| - 4..] == ".pdf";
    assert EndsWith(u, ".pdf");
    assert u[..|u| - 4] == p + abs + id;
  }

  /** The one `pdf` segment is the only occurrence the rewrite touches. */
  lemma PdfPathReplaced(p: string, rest: string)
    requires forall i :: 0 <= i < |p| ==> p[i] != 'a'
    requires forall i :: 0 <= i < |rest| ==> rest[i] != 'a'
    ensures ReplaceAll(p + ("arxiv.org/pdf/" + rest), "arxiv.org/pdf/", "arxiv.org/abs/")
         == p + "arxiv.org/abs/" + rest
  {
    var pat := "arxiv.org/pdf/";
    var abs := "arxiv.org/abs/";
    forall i | 0 <= i < |p|
      ensures !StartsWith(p[i..] + (pat + rest), pat)
    {
      assert (p[i..] + (pat + rest))[0] == p[i];
    }
    ReplaceSkipsPrefix(p, pat + rest, pat, abs);
    ReplaceAtStart(pat, rest, abs);
    NotContainsFirstChar(rest, pat);
    ReplaceAbsent(rest, pat, abs);
  }

  /** The length of a `[digits.digits]` prefix, if the string has one. */
  function BracketIdLen(s: string): (r: Option<nat>)
    ensures r.Some? ==> 4 < r.value <= |s| && s[0] == '[' && s[r.value - 1] == ']'
  {
    if |s| == 0 || s[0] != '[' then None
    else
      var a := LeadLen(s[1..], IsDigit);
      if a == 0 || 1 + a >= |s| || s[1 + a] != '.' then None
      else
        var b := LeadLen(s[2 + a..], IsDigit);
        if b == 0 || 2 + a + b >= |s| || s[2 + a + b] != ']' then None
        else Some(3 + a + b)
  }

  /** `re.sub(r'^\[\d+\.\d+\]\s*', '', title)` */
  function StripArxivId(title: string): (r: string)
    ensures BracketIdLen(title).None? ==> r == title
    ensures BracketIdLen(title).Some? ==>
              EndsWith(title, r) && |r| < |title| && (|r| == 0 || !IsSpace(r[0]))
  {
    match BracketIdLen(title)
    case None => title
    case Some(n) => LStripBy(title[n..], IsSpace)
  }

  predicate AllDigits(s: string) {
    forall i :: 0 <= i < |s| ==> IsDigit(s[i])
  }

  /** A run of digits followed by a non-digit is a digit run of its own length. */
  lemma DigitRun(a: string, c: char, tail: string)
    requires AllDigits(a) && !IsDigit(c)
    ensures LeadLen(a + [c] + tail, IsDigit) == |a|
  {
    LeadExact(a + [c] + tail, a, [c] + tail, IsDigit);
  }

  /** `[a.b]` with digit runs `a` and `b` is a bracketed identifier of
      length `|a| + |b| + 3`. */
  lemma BracketIdOf(a: string, b: string, tail: string)
    requires |a| > 0 && |b| > 0 && AllDigits(a) && AllDigits(b)
    ensures BracketIdLen("[" + a + "." + b + "]" + tail) == Some(3 + |a| + |b|)
  {
    var t := "[" + a + "." + b + "]" + tail;
    var t1 := a + ['.'] + (b + "]" + tail);
    var t2 := b + [']'] + tail;
    assert t[1..] == t1;
    DigitRun(a, '.', b + "]" + tail);
    assert t[1 + |a|] == '.';
    assert t[2 + |a|..] == t2;
    DigitRun(b, ']', tail);
    assert t[2 + |a| + |b|] == ']';
  }

  /** `[2301.00001] Attention` loses its bracketed identifier and the
      blanks after it. */
  lemma StripArxivIdOf(a: string, b: string, blanks: string, rest: string)
    requires |a| > 0 && |b| > 0 && AllDigits(a) && AllDigits(b)
    requires forall i :: 0 <= i < |blanks| ==> IsSpace(blanks[i])
    requires |rest| == 0 || !IsSpace(rest[0])
    ensures StripArxivId("[" + a + "." + b + "]" + blanks + rest) == rest
  {
    var t := "[" + a + "." + b + "]" + blanks + rest;
    assert t == "[" + a + "." + b + "]" + (blanks + rest);
    BracketIdOf(a, b, blanks + rest);
    var n := 3 + |a| + |b|;
    assert t[n..] == blanks + rest;
    LStripExact(blanks, rest, IsSpace);
  }

  /** The captured groups `_extract_arxiv_title` looks for, in its order. */
  datatype ArxivTitleCaptures = ArxivTitleCaptures(
    citationTitle: Option<string>, ogTitle: Option<string>, h1Title: Option<string>)

  /** `_extract_arxiv_title`: the first pattern that matched decides. */
  function ArxivTitle(c: ArxivTitleCaptures): (r: string)
    ensures c.citationTitle.Some? ==> r == Strip(c.citationTitle.value)
    ensures c.citationTitle.None? && c.ogTitle.Some? ==> r == StripArxivId(Strip(c.ogTitle.value))
    ensures c.citationTitle.None? && c.ogTitle.None? && c.h1Title.Some? ==> r == Strip(c.h1Title.value)
    ensures c.citationTitle.None? && c.ogTitle.None? && c.h1Title.None? ==> r == ""
  {
    match (c.citationTitle, c.ogTitle, c.h1Title)
    case (Some(t), _, _) => Strip(t)
    case (None, Some(t), _) => StripArxivId(Strip(t))
    case (None, None, Some(t)) => Strip(t)
    case (None, None, None) => ""
  }

  /** The captured groups `_extract_arxiv_date` looks for; `dateline` is the
      date found inside the dateline element, when both searches succeed. */
  datatype ArxivDateCaptures = ArxivDateCaptures(
    citationDate: Option<string>, onlineDate: Option<string>,
    submitted: Option<string>, datelineDate: Option<string>)

  /** `date_str.replace("/", "-")` on a `YYYY/MM/DD` citation date. */
  function DashDate(d: string): (r: string)
    ensures |r| == |d| && '/' !in r
    ensures forall i :: 0 <= i < |d| ==> r[i] == if d[i] == '/' then '-' else d[i]
  {
    WithoutIsMap(d);
    MapChar(d, '/', '-')
  }

  lemma WithoutIsMap(d: string)
    ensures '/' !in MapChar(d, '/', '-')
  {
    var r := MapChar(d, '/', '-');
    forall i | 0 <= i < |r| ensures r[i] != '/' {
    }
  }

  /** The slash rewrite is `str.replace` of every `/`. */
  lemma DashDateIsReplace(d: string)
    ensures DashDate(d) == ReplaceAll(d, "/", "-")
  {
    MapCharIsReplace(d, '/', '-');
  }

  lemma DashDateExample()
    ensures DashDate("2024/12/02") == "2024-12-02"
  {
  }

  /** `_extract_arxiv_date` */
  function ArxivDate(c: ArxivDateCaptures): (r: string)
    ensures c.citationDate.Some? ==> r == DashDate(Strip(c.citationDate.value))
    ensures c.citationDate.None? && c.onlineDate.Some? ==> r == DashDate(Strip(c.onlineDate.value))
    ensures c.citationDate.None? && c.onlineDate.None? ==>
              r == if c.submitted.Some? then c.submitted.value else c.datelineDate.GetOr("")
  {
    if c.citationDate.Some? then DashDate(Strip(c.citationDate.value))
    else if c.onlineDate.Some? then DashDate(Strip(c.onlineDate.value))
    else if c.submitted.Some? then c.submitted.value
    else c.datelineDate.GetOr("")
  }

  // ---------------------------------------------------------------------
  // Fetching a page

  /** The HTTP response: status, the `content-type` header (empty when
      absent) and the decoded body. */
  datatype Response = Response(status: int, contentType: string, text: string)

  /** What the extraction libraries and the page-specific regular
      expressions produce from the fetched HTML. Empty strings stand for
      Python's falsy values. */
  datatype PageFacts = PageFacts(
    extracted: string,          // trafilatura.extract, or "" when None
    metaTitle: string,          // extract_metadata(html).title, or ""
    metaDate: string,           // extract_metadata(html).date, or ""
    arxivTitle: ArxivTitleCaptures,
    arxivDate: ArxivDateCaptures,
    zhihuTitle: string,         // _extract_zhihu_content(...)["title"]
    zhihuContent: string,
    zhihuDate: string,
    htmlTitle: string)          // _extract_title_from_html(html)

  datatype LinkError =
    | HttpStatus(code: int)           // raise_for_status
    | UnexpectedKeyword(name: string) // TypeError from a bad constructor keyword

  const ZhihuBlockedTitle: string := "知乎链接 (需要手动复制内容)"
  const ZhihuBlockedBody: string := "知乎有严格的反爬虫保护，无法自动抓取内容。请手动复制文章内容后使用文本模式输入。"
  const PdfBody: string := "PDF document"

  /** The longest body handed on to the language model. */
  const MaxBody: nat := 10000

  predicate IsZhihu(url: string) {
    Contains(url, "zhihu.com")
  }

  predicate IsArxiv(url: string) {
    Contains(url, "arxiv.org")
  }

  /** Zhihu's anti-bot answer: a 403 or a verification page. */
  predicate ZhihuBlocked(url: string, resp: Response) {
    IsZhihu(url) && (resp.status == 403 || Contains(resp.text, "安全验证"))
  }

  predicate IsSuccessStatus(status: int) {
    200 <= status < 300
  }

  /** A response is a PDF when "pdf" occurs anywhere in its content type,
      in any case. */
  function IsPdfResponse(resp: Response): (r: bool)
    ensures r <==> exists i :: 0 <= i <= |resp.contentType| && StartsWith(Lower(resp.contentType)[i..], "pdf")
  {
    ContainsIff(Lower(resp.contentType), "pdf");
    Contains(Lower(resp.contentType), "pdf")
  }

  /** The first non-empty candidate, or "" when all are empty (Python's
      chain of `or`). */
  function FirstNonEmpty(cands: seq<string>): (r: string)
    ensures r == "" <==> forall i :: 0 <= i < |cands| ==> cands[i] == ""
    ensures r == "" || r in cands
  {
    if |cands| == 0 then ""
    else if cands[0] != "" then cands[0]
    else FirstNonEmpty(cands[1..])
  }

  /** The chain picks the candidate before which all are empty. */
  lemma {:induction false} FirstNonEmptyAt(cands: seq<string>, i: nat)
    requires i < |cands| && cands[i] != ""
    requires forall j :: 0 <= j < i ==> cands[j] == ""
    ensures FirstNonEmpty(cands) == cands[i]
  {
    if i > 0 {
      FirstNonEmptyAt(cands[1..], i - 1);
    }
  }

  /** The assignments to `title` in `process`, given the Zhihu title (empty
      off Zhihu), the ArXiv title (empty off ArXiv), the metadata title,
      the `<title>` text and the fetched URL. */
  function TitleChain(zhihu: string, arxiv: string, meta: string, html: string, url: string): (r: string)
    ensures r == "" <==> zhihu == "" && arxiv == "" && meta == "" && html == "" && url == ""
    ensures zhihu != "" ==> r == zhihu
    ensures zhihu == "" && arxiv != "" ==> r == arxiv
    ensures r in [zhihu, arxiv, meta, html, url]
  {
    var t1 := if arxiv != "" then arxiv else meta;
    var t2 := if zhihu != "" then zhihu else t1;
    if t2 != "" then t2
    else if html != "" then html
    else url
  }

  /** Title precedence: Zhihu's own title, then the ArXiv title, then the
      page metadata, then `<title>`, then the fetched URL itself. */
  lemma TitlePrecedence(zhihu: string, arxiv: string, meta: string, html: string, url: string)
    ensures TitleChain(zhihu, arxiv, meta, html, url) == FirstNonEmpty([zhihu, arxiv, meta, html, url])
  {
    var cands := [zhihu, arxiv, meta, html, url];
    if zhihu != "" {
      FirstNonEmptyAt(cands, 0);
    } else if arxiv != "" {
      FirstNonEmptyAt(cands, 1);
    } else if meta != "" {
      FirstNonEmptyAt(cands, 2);
    } else if html != "" {
      FirstNonEmptyAt(cands, 3);
    } else if url != "" {
      FirstNonEmptyAt(cands, 4);
    }
  }

  /** The chain over three candidates, spelled out. */
  lemma FirstOfThree(a: string, b: string, c: string)
    ensures FirstNonEmpty([a, b, c]) == if a != "" then a else if b != "" then b else c
  {
    var cands := [a, b, c];
    if a != "" {
      FirstNonEmptyAt(cands, 0);
    } else if b != "" {
      FirstNonEmptyAt(cands, 1);
    } else if c != "" {
      FirstNonEmptyAt(cands, 2);
    }
  }

  /** The title of an HTML page. */
  function PageTitle(url: string, f: PageFacts): (r: string)
    ensures url != "" ==> r != ""
    ensures IsZhihu(url) && f.zhihuTitle != "" ==> r == f.zhihuTitle
    ensures !IsZhihu(url) && IsArxiv(url) && ArxivTitle(f.arxivTitle) != "" ==> r == ArxivTitle(f.arxivTitle)
    ensures !IsZhihu(url) && !IsArxiv(url) ==> r == FirstNonEmpty([f.metaTitle, f.htmlTitle, url])
  {
    FirstOfThree(f.metaTitle, f.htmlTitle, url);
    TitleChain(if IsZhihu(url) then f.zhihuTitle else "",
               if IsArxiv(url) then ArxivTitle(f.arxivTitle) else "",
               f.metaTitle, f.htmlTitle, url)
  }

  function PageBody(url: string, f: PageFacts): string {
    if IsZhihu(url) && f.zhihuContent != "" then f.zhihuContent else f.extracted
  }

  function PageDate(url: string, f: PageFacts): (r: Option<string>)
    ensures r.Some? ==> r.value != ""
  {
    var d0 := f.metaDate;
    var a := ArxivDate(f.arxivDate);
    var d1 := if IsArxiv(url) && a != "" then a else d0;
    var d2 := if IsZhihu(url) && f.zhihuDate != "" then f.zhihuDate else d1;
    if d2 == "" then None else Some(d2)
  }

  /** The record the HTML path builds, with the publication date stored
      in its own field. */
  function HtmlRecord(url: string, original: string, f: PageFacts): (r: ProcessedContent)
    ensures r.contentType == Link && r.source == original
    ensures |r.content| <= MaxBody
    ensures r.content == Take(PageBody(url, f), MaxBody)
    ensures r.title == PageTitle(url, f)
    ensures r.publishDate == PageDate(url, f)
  {
    Basic(Link, PageTitle(url, f), original, Take(PageBody(url, f), MaxBody))
      .(publishDate := PageDate(url, f))
  }

  /** Which return of `process` a fetch reaches. */
  datatype LinkPath = Blocked | StatusError | PdfLink | Html

  function PathOf(input: string, resp: Response): LinkPath {
    var url := NormalizeArxivUrl(Strip(input)).0;
    if ZhihuBlocked(url, resp) then Blocked
    else if !IsSuccessStatus(resp.status) then StatusError
    else if IsPdfResponse(resp) then PdfLink
    else Html
  }

  /** Which record constructor a fetch builds with: the one `base.py`
      declares, which has no date field, or one that accepts the date. */
  datatype Build = AsWritten | Corrected

  /** `LinkProcessor.process` as written: the HTML path passes a
      `publish_date` keyword the record type does not declare, so that
      path raises `TypeError` instead of returning. */
  function LinkProcessAsWritten(input: string, resp: Response, f: PageFacts): (r: Result<ProcessedContent, LinkError>)
    ensures PathOf(input, resp) == Html ==> r == Failure(UnexpectedKeyword("publish_date"))
    ensures PathOf(input, resp) != Html ==> r == LinkProcess(input, resp, f)
  {
    if PathOf(input, resp) == Html then Failure(UnexpectedKeyword("publish_date"))
    else LinkProcess(input, resp, f)
  }

  /** `LinkProcessor.process` with the record accepting the date. */
  function LinkProcess(input: string, resp: Response, f: PageFacts): (r: Result<ProcessedContent, LinkError>)
    ensures r.Success? <==> PathOf(input, resp) != StatusError
    ensures r.Failure? ==> r.error == HttpStatus(resp.status) && !IsSuccessStatus(resp.status)
    ensures r.Success? ==> r.value.contentType == Link && r.value.source == Strip(input)
    ensures PathOf(input, resp) == Blocked ==>
              r == Success(Basic(Link, ZhihuBlockedTitle, Strip(input), ZhihuBlockedBody))
    ensures PathOf(input, resp) == PdfLink ==>
              r == Success(Basic(Link, Strip(input), Strip(input), PdfBody))
    ensures PathOf(input, resp) == Html ==>
              r.Success? && |r.value.content| <= MaxBody
              && r.value.title == PageTitle(NormalizeArxivUrl(Strip(input)).0, f)
  {
    var (url, original) := NormalizeArxivUrl(Strip(input));
    if ZhihuBlocked(url, resp) then
      Success(Basic(Link, ZhihuBlockedTitle, original, ZhihuBlockedBody))
    else if !IsSuccessStatus(resp.status) then
      Failure(HttpStatus(resp.status))
    else if IsPdfResponse(resp) then
      Success(Basic(Link, original, original, PdfBody))
    else
      Success(HtmlRecord(url, original, f))
  }

  /** The discrepancy: every page that gets past the status and PDF checks
      is lost as written, and kept by the corrected record. */
  lemma HtmlPathLost(input: string, resp: Response, f: PageFacts)
    requires PathOf(input, resp) == Html
    ensures LinkProcessAsWritten(input, resp, f).Failure?
    ensures LinkProcess(input, resp, f).Success?
  {
  }

  /** The HTML path is an ordinary one: a URL that is neither an ArXiv PDF
      link nor on Zhihu (here: one without `a` or `z`, as
      `https://go.dev`), answered 2xx with a non-PDF content type such as
      `text/html`, takes it. */
  lemma HtmlPathReached(input: string, resp: Response)
    requires forall i :: 0 <= i < |Strip(input)| ==> Strip(input)[i] != 'a' && Strip(input)[i] != 'z'
    requires IsSuccessStatus(resp.status)
    requires forall i :: 0 <= i < |resp.contentType| ==> resp.contentType[i] != 'p' && resp.contentType[i] != 'P'
    ensures PathOf(input, resp) == Html
  {
    var u := Strip(input);
    NotContainsFirstChar(u, "arxiv.org/pdf/");
    NotContainsFirstChar(u, "zhihu.com");
    var lc := Lower(resp.contentType);
    forall i | 0 <= i < |lc| ensures lc[i] != 'p' {
    }
    NotContainsFirstChar(lc, "pdf");
  }
}
