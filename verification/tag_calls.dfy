/** The tag calls of kb/tagger.py around the language model: each is
    skipped without a model or on blank input, and yields nothing when the
    call raises. The model is an input. */
module TagCalls {
  import opened Outcomes
  import opened Strings
  import Config
  import Replies
  import opened Tagger

  /** What a prompt asks for, with the data it carries. */
  datatype Request =
    | SuggestRequest(content: string, presets: seq<string>)
    | ExtraRequest(excerpt: string, presets: seq<string>, count: nat)
    | TitleRequest(context: string, presets: seq<string>)

  /** The language model: its reply to a request, or `None` when the call
      raises. */
  datatype Model = Model(reply: Request -> Option<string>)

  /** `Tagger.suggest_tags` */
  function SuggestTags(model: Option<Model>, cfg: Config.TagConfig, content: string): (r: seq<string>)
    ensures model.None? || Strip(content) == "" ==> r == []
    ensures forall i :: 0 <= i < |r| ==> r[i] in cfg.presets
  {
    if model.None? || Strip(content) == "" then []
    else match model.value.reply(SuggestRequest(content, cfg.presets))
      case Some(reply) => Replies.SuggestTags(reply, cfg.presets)
      case None => []
  }

  /** `generate_extra_tags` */
  function GenerateExtraTags(model: Option<Model>, cfg: Config.TagConfig, content: string, count: nat)
    : (r: seq<string>)
    ensures model.None? || Strip(content) == "" ==> r == []
    ensures |r| <= count
    ensures forall i :: 0 <= i < |r| ==> ExtraOk(r[i], cfg.presets)
  {
    if model.None? || Strip(content) == "" then []
    else match model.value.reply(ExtraRequest(Take(content, 3000), cfg.presets, count))
      case Some(reply) => ParseExtraTags(reply, cfg.presets, count)
      case None => []
  }

  /** The user message of `generate_tags_from_title`. */
  function TitleContext(title: string, source: string): (r: string)
    ensures StartsWith(r, "标题: " + title)
  {
    "标题: " + title + (if source != "" then "\n来源: " + source else "")
  }

  /** `generate_tags_from_title` */
  function GenerateTitleTags(model: Option<Model>, cfg: Config.TagConfig, title: string, source: string)
    : (r: (seq<string>, seq<string>))
    ensures model.None? || Strip(title) == "" ==> r == ([], [])
    ensures forall i :: 0 <= i < |r.0| ==> r.0[i] in cfg.presets
    ensures |r.1| <= MaxTitleExtras
  {
    if model.None? || Strip(title) == "" then ([], [])
    else match model.value.reply(TitleRequest(TitleContext(title, source), cfg.presets))
      case Some(reply) => ParseTitleTags(reply, cfg.presets)
      case None => ([], [])
  }
}
