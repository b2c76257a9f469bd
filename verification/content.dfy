/** The record every extractor produces, the fixed Chinese/English tag
    dictionary, and the two tag renderings and the bilingual message built
    from a record (kb/processors/base.py). */
module Content {
  import opened Outcomes
  import opened Strings
  import opened Seqs
  import Paths

  datatype ContentType = Link | File | Text | Image | Pdf

  /** `ProcessedContent`, with the `publish_date` field the web extractor
      sets (see the web extractor module). */
  datatype ProcessedContent = ProcessedContent(
    contentType: ContentType,
    title: string,
    source: string,
    content: string,
    summary: Option<string>,
    tags: seq<string>,
    titleEn: Option<string>,
    summaryEn: Option<string>,
    filePath: Option<string>,
    fileSize: Option<nat>,
    mimeType: Option<string>,
    imageDescription: Option<string>,
    rawData: Option<seq<bv8>>,
    publishDate: Option<string>)

  /** A record with every optional field at its default. */
  function Basic(kind: ContentType, title: string, source: string, content: string): (r: ProcessedContent)
    ensures r.contentType == kind && r.title == title && r.source == source && r.content == content
    ensures r.tags == [] && r.summary.None? && r.titleEn.None? && r.filePath.None?
  {
    ProcessedContent(kind, title, source, content, None, [], None, None, None, None, None, None, None, None)
  }

  /** Python truthiness of an optional string: present and non-empty. */
  predicate Truthy(s: Option<string>) {
    s.Some? && s.value != ""
  }

  // ---------------------------------------------------------------------
  // Translation dictionary

  /** `TAG_TRANSLATIONS` in insertion order, which is the order the
      case-insensitive lookup scans: the Chinese keys first, then the
      English ones. The table is written in short runs so that the
      verifier can index it. */
  const ZhEn1: seq<(string, string)> := [
    ("多模态", "Multimodal"),
    ("智能体", "Agent"),
    ("大模型", "LLM"),
    ("大语言模型", "LLM"),
    ("视觉语言模型", "VLM"),
    ("预训练", "Pretraining"),
    ("后训练", "Post-training"),
    ("强化学习", "RL")
  ]
  const ZhEn2: seq<(string, string)> := [
    ("微调", "Finetuning"),
    ("提示词", "Prompt"),
    ("检索增强", "RAG"),
    ("论文", "Paper"),
    ("工具", "Tools"),
    ("教程", "Tutorial"),
    ("文章", "Article"),
    ("研究", "Research")
  ]
  const ZhEn3: seq<(string, string)> := [
    ("编程", "Programming"),
    ("产品", "Product"),
    ("设计", "Design"),
    ("新闻", "News"),
    ("观点", "Opinion"),
    ("开源", "OpenSource"),
    ("模型", "Model"),
    ("数据集", "Dataset")
  ]
  const ZhEn4: seq<(string, string)> := [
    ("推理", "Inference"),
    ("训练", "Training"),
    ("部署", "Deployment"),
    ("评测", "Benchmark"),
    ("对齐", "Alignment"),
    ("安全", "Safety")
  ]
  const EnZh1: seq<(string, string)> := [
    ("Multimodal", "多模态"),
    ("Multi-modal", "多模态"),
    ("Agent", "智能体"),
    ("LLM", "大语言模型"),
    ("VLM", "视觉语言模型"),
    ("Pretraining", "预训练"),
    ("Pre-training", "预训练"),
    ("Post-training", "后训练")
  ]
  const EnZh2: seq<(string, string)> := [
    ("RL", "强化学习"),
    ("Finetuning", "微调"),
    ("Fine-tuning", "微调"),
    ("Prompt", "提示词"),
    ("RAG", "检索增强"),
    ("Paper", "论文"),
    ("Tools", "工具"),
    ("Tutorial", "教程")
  ]
  const EnZh3: seq<(string, string)> := [
    ("Article", "文章"),
    ("Research", "研究"),
    ("Programming", "编程"),
    ("Product", "产品"),
    ("Design", "设计"),
    ("News", "新闻"),
    ("Opinion", "观点"),
    ("OpenSource", "开源")
  ]
  const EnZh4: seq<(string, string)> := [
    ("Model", "模型"),
    ("Dataset", "数据集"),
    ("Inference", "推理"),
    ("Training", "训练"),
    ("Deployment", "部署"),
    ("Benchmark", "评测"),
    ("Alignment", "对齐"),
    ("Safety", "安全")
  ]
  const EnZh5: seq<(string, string)> := [
    ("AI", "人工智能")
  ]
  const Translations: seq<(string, string)> :=
    ZhEn1 + ZhEn2 + ZhEn3 + ZhEn4 + EnZh1 + EnZh2 + EnZh3 + EnZh4 + EnZh5

  /** The index of the first entry whose key satisfies `p`. */
  function FindKey(t: seq<(string, string)>, p: string -> bool): (r: Option<nat>)
    ensures r.Some? ==> r.value < |t| && p(t[r.value].0)
                        && forall j :: 0 <= j < r.value ==> !p(t[j].0)
    ensures r.None? ==> forall j :: 0 <= j < |t| ==> !p(t[j].0)
  {
    if |t| == 0 then None
    else if p(t[0].0) then Some(0)
    else match FindKey(t[1..], p)
      case Some(k) => Some(k + 1)
      case None => None
  }

  /** The lookup `get_tag_translation` performs on a table: the value of
      the first key equal to `tag`; failing that, the value of the first key
      equal to it ignoring case. */
  function Lookup(t: seq<(string, string)>, tag: string): (r: Option<string>)
    ensures forall i :: 0 <= i < |t| && t[i].0 == tag && (forall j :: 0 <= j < i ==> t[j].0 != tag) ==>
              r == Some(t[i].1)
    ensures (forall i :: 0 <= i < |t| ==> t[i].0 != tag) ==>
              forall i :: 0 <= i < |t| && Lower(t[i].0) == Lower(tag)
                          && (forall j :: 0 <= j < i ==> Lower(t[j].0) != Lower(tag)) ==>
                r == Some(t[i].1)
    ensures r.None? <==> forall i :: 0 <= i < |t| ==> Lower(t[i].0) != Lower(tag)
    ensures r.Some? ==> exists i :: 0 <= i < |t| && Lower(t[i].0) == Lower(tag) && r.value == t[i].1
  {
    match FindKey(t, k => k == tag)
    case Some(i) =>
      assert t[i].0 == tag;
      Some(t[i].1)
    case None =>
      match FindKey(t, k => Lower(k) == Lower(tag))
      case Some(i) =>
        assert Lower(t[i].0) == Lower(tag);
        Some(t[i].1)
      case None => None
  }

  /** `get_tag_translation` */
  function GetTagTranslation(tag: string): (r: Option<string>)
    ensures r.Some? ==> r.value != ""
  {
    TranslationsNonEmpty();
    Lookup(Translations, tag)
  }

  /** A tag has a translation exactly when some key of the dictionary
      matches it ignoring case, and the translation is that key's value. */
  lemma TranslationFound(tag: string)
    ensures GetTagTranslation(tag).None? <==>
              forall i :: 0 <= i < |Translations| ==> Lower(Translations[i].0) != Lower(tag)
    ensures GetTagTranslation(tag).Some? ==>
              exists i :: 0 <= i < |Translations| && Lower(Translations[i].0) == Lower(tag)
                          && GetTagTranslation(tag).value == Translations[i].1
  {
  }

  /** Every value of the dictionary is non-empty, so Python's truthiness
      test on a found translation only asks whether one was found. */
  lemma TranslationsNonEmpty()
    ensures forall i :: 0 <= i < |Translations| ==> Translations[i].1 != ""
  {
  }

  lemma TranslationExample()
    ensures GetTagTranslation("多模态") == Some("Multimodal")
  {
    assert Translations[0] == ("多模态", "Multimodal");
  }

  // ---------------------------------------------------------------------
  // Tag renderings

  /** The display list being built and the `seen` set beside it. */
  datatype Rendering = Rendering(entries: seq<string>, seen: set<string>)

  const EmptyRendering := Rendering([], {})

  function Hashed(xs: set<string>): set<string> {
    set x | x in xs :: "#" + x
  }

  /** Every entry is `#` + a seen string, every seen string has its entry,
      and nothing is listed twice. */
  predicate Valid(r: Rendering) {
    && Elems(r.entries) == Hashed(r.seen)
    && NoDup(r.entries)
  }

  /** `if x not in seen: out.append(f"#{x}"); seen.add(x)` */
  function Emit(r: Rendering, x: string): (r': Rendering)
    requires Valid(r)
    ensures Valid(r')
    ensures r'.seen == r.seen + {x}
    ensures r.entries <= r'.entries
    ensures x in r.seen ==> r' == r
    ensures x !in r.seen ==> r'.entries == r.entries + ["#" + x]
  {
    if x in r.seen then r
    else
      var e := r.entries + ["#" + x];
      ElemsAppend(r.entries, "#" + x);
      forall y | y in r.seen ensures "#" + y != "#" + x {
        HashInjective(x, y);
      }
      assert forall i :: 0 <= i < |r.entries| ==> r.entries[i] in Hashed(r.seen);
      Rendering(e, r.seen + {x})
  }

  lemma HashInjective(x: string, y: string)
    ensures "#" + x == "#" + y ==> x == y
  {
    assert ("#" + x)[1..] == x && ("#" + y)[1..] == y;
  }

  /** `tag.replace("-", "")` */
  function Clean(tag: string): string {
    Without(tag, '-')
  }

  /** A translation the Chinese rendering shows: found, non-empty, not ASCII. */
  predicate ChineseTranslation(tag: string) {
    var t := GetTagTranslation(tag);
    t.Some? && t.value != "" && !IsAscii(t.value)
  }

  /** What one tag contributes to the Chinese rendering, before the
      deduplication against earlier tags. */
  function ChineseDisplays(tag: string): set<string> {
    var c := Clean(tag);
    if c == "" then {}
    else if !IsAscii(c) then {c}
    else if ChineseTranslation(tag) then {GetTagTranslation(tag).value, c}
    else {c}
  }

  /** One iteration of `_get_chinese_tags`. */
  function ChineseStep(r: Rendering, tag: string): (r': Rendering)
    requires Valid(r)
    ensures Valid(r')
    ensures r'.seen == r.seen + ChineseDisplays(tag)
    ensures r.entries <= r'.entries
  {
    var c := Clean(tag);
    if c == "" then r
    else if !IsAscii(c) then Emit(r, c)
    else
      var r1 := if ChineseTranslation(tag) then Emit(r, GetTagTranslation(tag).value) else r;
      Emit(r1, c)
  }

  function ChineseFold(tags: seq<string>): (r: Rendering)
    ensures Valid(r)
  {
    if |tags| == 0 then EmptyRendering
    else ChineseStep(ChineseFold(tags[..|tags| - 1]), tags[|tags| - 1])
  }

  /** The union of what every tag of `tags` contributes. */
  function AllDisplays(tags: seq<string>, f: string -> set<string>): set<string> {
    if |tags| == 0 then {} else AllDisplays(tags[..|tags| - 1], f) + f(tags[|tags| - 1])
  }

  /** `ProcessedContent._get_chinese_tags` */
  function ChineseTags(tags: seq<string>): (r: seq<string>)
    ensures NoDup(r)
    ensures forall i :: 0 <= i < |r| ==> |r[i]| >= 2 && r[i][0] == '#'
  {
    var f := ChineseFold(tags);
    assert forall i :: 0 <= i < |f.entries| ==> f.entries[i] in Hashed(f.seen);
    ChineseNonEmptyDisplays(tags);
    f.entries
  }

  lemma {:induction false} ChineseSeen(tags: seq<string>)
    ensures ChineseFold(tags).seen == AllDisplays(tags, ChineseDisplays)
  {
    if |tags| > 0 {
      ChineseSeen(tags[..|tags| - 1]);
    }
  }

  lemma ChineseNonEmptyDisplays(tags: seq<string>)
    ensures "" !in ChineseFold(tags).seen
  {
    ChineseSeen(tags);
    NoEmptyDisplay(tags, ChineseDisplays);
  }

  lemma {:induction false} NoEmptyDisplay(tags: seq<string>, f: string -> set<string>)
    requires forall t :: "" !in f(t)
    ensures "" !in AllDisplays(tags, f)
  {
    if |tags| > 0 {
      NoEmptyDisplay(tags[..|tags| - 1], f);
    }
  }

  /** The Chinese rendering lists exactly `#x` for each display string
      `x` some tag contributes: the hyphen-stripped tag itself, and for an
      ASCII tag also its non-ASCII translation. */
  lemma ChineseTagsExactly(tags: seq<string>)
    ensures Elems(ChineseTags(tags)) == Hashed(AllDisplays(tags, ChineseDisplays))
  {
    ChineseSeen(tags);
  }

  /** A tag that is empty once its hyphens are gone adds nothing. */
  lemma ChineseSkipsEmpty(tags: seq<string>, tag: string)
    requires Clean(tag) == ""
    ensures ChineseTags(tags + [tag]) == ChineseTags(tags)
  {
    assert (tags + [tag])[..|tags|] == tags;
  }

  /** Appending an ASCII tag whose translation is non-ASCII lists the
      translation first, then the tag, each unless already listed. */
  lemma ChineseAsciiOrder(tags: seq<string>, tag: string)
    requires Clean(tag) != "" && IsAscii(Clean(tag)) && ChineseTranslation(tag)
    ensures var tr := GetTagTranslation(tag).value;
            var before := AllDisplays(tags, ChineseDisplays);
            ChineseTags(tags + [tag]) ==
              ChineseTags(tags)
              + (if tr in before then [] else ["#" + tr])
              + (if Clean(tag) in before || Clean(tag) == tr then [] else ["#" + Clean(tag)])
  {
    assert (tags + [tag])[..|tags|] == tags;
    ChineseSeen(tags);
  }

  /** Appending a non-ASCII tag lists it, hyphen-stripped, unless already listed. */
  lemma ChineseNonAscii(tags: seq<string>, tag: string)
    requires Clean(tag) != "" && !IsAscii(Clean(tag))
    ensures ChineseTags(tags + [tag]) ==
              ChineseTags(tags)
              + (if Clean(tag) in AllDisplays(tags, ChineseDisplays) then [] else ["#" + Clean(tag)])
  {
    assert (tags + [tag])[..|tags|] == tags;
    ChineseSeen(tags);
  }

  /** The case variant `_get_english_tags` adds: lower case when the first
      character is upper case, capitalised otherwise. */
  function Variant(c: string): (v: string)
    requires c != ""
    ensures |v| == |c|
    ensures IsAscii(c) ==> IsAscii(v)
  {
    if IsUpperChar(c[0]) then Lower(c) else Capitalize(c)
  }

  /** The ASCII translation the English rendering uses for a non-ASCII tag. */
  predicate EnglishTranslation(tag: string) {
    var t := GetTagTranslation(tag);
    t.Some? && t.value != "" && IsAscii(t.value)
  }

  /** The hyphen-stripped English form of a tag, if it has one. */
  function EnglishBase(tag: string): string {
    if IsAscii(tag) then Clean(tag)
    else if EnglishTranslation(tag) then Clean(GetTagTranslation(tag).value)
    else ""
  }

  /** What one tag contributes to the English rendering. */
  function EnglishDisplays(tag: string): set<string> {
    var c := EnglishBase(tag);
    if c == "" then {} else {c, Variant(c)}
  }

  /** `if c and c not in seen: add c`, then the variant when it differs. */
  function EmitWithVariant(r: Rendering, c: string): (r': Rendering)
    requires Valid(r) && c != ""
    ensures Valid(r')
    ensures r'.seen == r.seen + {c, Variant(c)}
    ensures r.entries <= r'.entries
  {
    var r1 := Emit(r, c);
    var v := Variant(c);
    if v != c then Emit(r1, v) else r1
  }

  /** One iteration of `_get_english_tags`. */
  function EnglishStep(r: Rendering, tag: string): (r': Rendering)
    requires Valid(r)
    ensures Valid(r')
    ensures r'.seen == r.seen + EnglishDisplays(tag)
    ensures r.entries <= r'.entries
  {
    if IsAscii(tag) then
      var c := Clean(tag);
      if c == "" then r else EmitWithVariant(r, c)
    else if EnglishTranslation(tag) then
      var c := Clean(GetTagTranslation(tag).value);
      if c == "" then r else EmitWithVariant(r, c)
    else r
  }

  function EnglishFold(tags: seq<string>): (r: Rendering)
    ensures Valid(r)
  {
    if |tags| == 0 then EmptyRendering
    else EnglishStep(EnglishFold(tags[..|tags| - 1]), tags[|tags| - 1])
  }

  /** `ProcessedContent._get_english_tags` */
  function EnglishTags(tags: seq<string>): (r: seq<string>)
    ensures NoDup(r)
    ensures forall i :: 0 <= i < |r| ==> |r[i]| >= 2 && r[i][0] == '#'
  {
    var f := EnglishFold(tags);
    assert forall i :: 0 <= i < |f.entries| ==> f.entries[i] in Hashed(f.seen);
    EnglishSeen(tags);
    NoEmptyDisplay(tags, EnglishDisplays);
    f.entries
  }

  lemma {:induction false} EnglishSeen(tags: seq<string>)
    ensures EnglishFold(tags).seen == AllDisplays(tags, EnglishDisplays)
  {
    if |tags| > 0 {
      EnglishSeen(tags[..|tags| - 1]);
    }
  }

  /** The English rendering lists exactly `#x` for the hyphen-stripped
      English form of each tag and for its case variant. */
  lemma EnglishTagsExactly(tags: seq<string>)
    ensures Elems(EnglishTags(tags)) == Hashed(AllDisplays(tags, EnglishDisplays))
  {
    EnglishSeen(tags);
  }

  /** A non-ASCII tag without an ASCII translation adds nothing. */
  lemma EnglishSkipsUntranslated(tags: seq<string>, tag: string)
    requires !IsAscii(tag) && !EnglishTranslation(tag)
    ensures EnglishTags(tags + [tag]) == EnglishTags(tags)
  {
    assert (tags + [tag])[..|tags|] == tags;
  }

  /** Appending a tag lists its English form, then its variant, each only
      when not already listed (and the variant only when it differs). */
  lemma EnglishOrder(tags: seq<string>, tag: string)
    requires EnglishBase(tag) != ""
    ensures var c := EnglishBase(tag);
            var v := Variant(c);
            var before := AllDisplays(tags, EnglishDisplays);
            EnglishTags(tags + [tag]) ==
              EnglishTags(tags)
              + (if c in before then [] else ["#" + c])
              + (if v == c || v in before then [] else ["#" + v])
  {
    assert (tags + [tag])[..|tags|] == tags;
    EnglishSeen(tags);
  }

  // ---------------------------------------------------------------------
  // Telegram message

  const Separator: string := Repeat('─', 20)

  /** The source line both sections show, if any. */
  function SourceLine(c: ProcessedContent): (r: Option<string>)
    ensures r.Some? <==> c.source != ""
  {
    if c.source == "" then None
    else if c.contentType == Link then Some("🔗 " + c.source)
    else if c.filePath.Some? then Some("📎 " + Paths.Name(c.filePath.value))
    else Some("🔗 " + c.source)
  }

  function SourceLines(c: ProcessedContent): seq<string> {
    match SourceLine(c)
    case Some(l) => [l, ""]
    case None => []
  }

  function TagLine(rendered: seq<string>): seq<string> {
    if |rendered| == 0 then [] else ["🏷️ " + Join(rendered, " ")]
  }

  /** The English title: `title_en or title`. */
  function EnglishTitle(c: ProcessedContent): string {
    if Truthy(c.titleEn) then c.titleEn.value else c.title
  }

  /** The English summary: `summary_en`, else the Chinese `summary`. */
  function EnglishSummary(c: ProcessedContent): Option<string> {
    if Truthy(c.summaryEn) then c.summaryEn
    else if Truthy(c.summary) then c.summary
    else None
  }

  function SummaryLines(s: Option<string>): seq<string> {
    if Truthy(s) then ["📝 " + s.value, ""] else []
  }

  function ChineseSection(c: ProcessedContent): seq<string> {
    ["📌 " + c.title, ""] + SummaryLines(c.summary) + SourceLines(c) + TagLine(ChineseTags(c.tags))
  }

  function EnglishSection(c: ProcessedContent): seq<string> {
    ["📌 " + EnglishTitle(c), ""] + SummaryLines(EnglishSummary(c)) + SourceLines(c) + TagLine(EnglishTags(c.tags))
  }

  /** The lines `format_for_telegram` joins: the Chinese section, a rule,
      the English section. */
  function TelegramLines(c: ProcessedContent): (lines: seq<string>)
    ensures |lines| >= 7
    ensures lines[0] == "📌 " + c.title
  {
    ChineseSection(c) + ["", Separator, ""] + EnglishSection(c)
  }

  /** `ProcessedContent.format_for_telegram` */
  function FormatForTelegram(c: ProcessedContent): (r: string)
    ensures StartsWith(r, "📌 " + c.title)
  {
    var lines := TelegramLines(c);
    JoinStartsWith(lines, "\n");
    Join(lines, "\n")
  }

  /** Every line is blank or starts with something other than the rule's character. */
  predicate NoRule(lines: seq<string>) {
    forall i :: 0 <= i < |lines| ==> lines[i] == "" || lines[i][0] != '─'
  }

  lemma NoRuleAppend(a: seq<string>, b: seq<string>)
    requires NoRule(a) && NoRule(b)
    ensures NoRule(a + b)
  {
    forall i | 0 <= i < |a + b| ensures (a + b)[i] == "" || (a + b)[i][0] != '─' {
      if i < |a| {
        assert (a + b)[i] == a[i];
      } else {
        assert (a + b)[i] == b[i - |a|];
      }
    }
  }

  /** A line opening with a marker, and the blank line after it. */
  lemma NoRuleMarked(marker: string, text: string)
    requires marker != "" && marker[0] != '─'
    ensures NoRule([marker + text]) && NoRule([marker + text, ""])
  {
    assert (marker + text)[0] == marker[0];
  }

  lemma NoRuleParts(c: ProcessedContent, s: Option<string>, rendered: seq<string>)
    ensures NoRule(SummaryLines(s))
    ensures NoRule(SourceLines(c))
    ensures NoRule(TagLine(rendered))
  {
    if Truthy(s) {
      NoRuleMarked("📝 ", s.value);
    }
    match SourceLine(c)
    case Some(l) =>
      if c.contentType == Link || c.filePath.None? {
        NoRuleMarked("🔗 ", c.source);
      } else {
        NoRuleMarked("📎 ", Paths.Name(c.filePath.value));
      }
    case None =>
    if |rendered| > 0 {
      NoRuleMarked("🏷️ ", Join(rendered, " "));
    }
  }

  lemma SectionsHaveNoRule(c: ProcessedContent)
    ensures NoRule(ChineseSection(c))
    ensures NoRule(EnglishSection(c))
  {
    NoRuleMarked("📌 ", c.title);
    NoRuleMarked("📌 ", EnglishTitle(c));
    NoRuleParts(c, c.summary, ChineseTags(c.tags));
    NoRuleParts(c, EnglishSummary(c), EnglishTags(c.tags));
    NoRuleAppend(["📌 " + c.title, ""], SummaryLines(c.summary));
    NoRuleAppend(["📌 " + c.title, ""] + SummaryLines(c.summary), SourceLines(c));
    NoRuleAppend(["📌 " + c.title, ""] + SummaryLines(c.summary) + SourceLines(c), TagLine(ChineseTags(c.tags)));
    var e0 := ["📌 " + EnglishTitle(c), ""];
    NoRuleAppend(e0, SummaryLines(EnglishSummary(c)));
    NoRuleAppend(e0 + SummaryLines(EnglishSummary(c)), SourceLines(c));
    NoRuleAppend(e0 + SummaryLines(EnglishSummary(c)) + SourceLines(c), TagLine(EnglishTags(c.tags)));
  }

  /** The message holds the rule exactly once, between the sections; the
      English section after it opens with `title_en` (or `title` when that
      is empty), then the English summary or, failing that, the Chinese one. */
  lemma EnglishSectionLayout(c: ProcessedContent, k: nat)
    requires k < |TelegramLines(c)| && TelegramLines(c)[k] == Separator
    ensures k == |ChineseSection(c)| + 1
    ensures TelegramLines(c)[k + 2] == "📌 " + EnglishTitle(c)
    ensures Truthy(c.summaryEn) ==>
              k + 4 < |TelegramLines(c)| && TelegramLines(c)[k + 4] == "📝 " + c.summaryEn.value
    ensures !Truthy(c.summaryEn) && Truthy(c.summary) ==>
              k + 4 < |TelegramLines(c)| && TelegramLines(c)[k + 4] == "📝 " + c.summary.value
  {
    SectionsHaveNoRule(c);
    var cn := ChineseSection(c);
    var en := EnglishSection(c);
    var lines := TelegramLines(c);
    assert Separator[0] == '─' && |Separator| == 20;
    if k < |cn| {
      assert false;
    } else if k == |cn| || k == |cn| + 2 {
      assert false;
    } else if k > |cn| + 2 {
      assert false;
    }
    assert lines[k + 2] == en[0];
    if Truthy(EnglishSummary(c)) {
      assert lines[k + 4] == en[2];
    }
  }
}
