# Knowledge-base publishing bot: a Dafny model of its core

The system is a Telegram bot that turns what a user sends it into a post
for a Telegram channel. A link, a local file path or plain text goes
through these steps:

- an extractor turns it into a `ProcessedContent` record;
- a language model adds a bilingual (Chinese and English) title and
  summary, and suggests tags from a preset vocabulary, plus extra tags;
- the user picks tags on an inline keyboard, or the bot publishes at once;
- the publisher renders the record as one bilingual Markdown message,
  sends it, and answers with the message's `t.me` link.

This project models that core as pure functions over immutable data:

- **Content**: the record, the tag translation table, the de-duplicated
  Chinese and English tag lines, and the layout of the published message.
- **TextProcessor**, **Link**, **Files**: the three extractors.
  - Text: title from the first line, body from the rest.
  - Link: URL extraction, arXiv URL, title and date clean-up, and the
    fetch outcome of each response kind.
  - Files: path clean-up, the extension table, and the PDF and image
    descriptions.
- **Factory**: how an input is routed to an extractor, and the
  `detect_input_type` classifier.
- **Config**: the default configuration, overrides from environment
  variables into the nested configuration dictionary, the preset-tag list,
  and provider lookup.
- **Replies**: the language-model prompts' content excerpts, parsing of
  the four-line bilingual reply, the short-title re-translation trigger,
  and preset matching of suggested tags.
- **Tagger** and **TagCalls**:
  - validating and persisting user tags;
  - parsing tags typed by the user;
  - parsing the model's extra-tag and title-tag replies;
  - the guards around each model call.
- **Publisher**: the choice between text, photo and document sends, and
  the message URL for public and private channels.
- **Bot**:
  - authorisation;
  - Markdown escaping;
  - choosing what to process from a message;
  - the summary and tag steps;
  - the tag keyboard;
  - the per-chat pending-selection state that the buttons and the
    `/cancel` and `/mode` commands change.

The outside world is passed in as data:

- the file system: a presence predicate and home expansion;
- HTTP responses and the facts the HTML scrapers would find;
- what the PDF and image libraries report;
- the URL regular expression's matches;
- the language model's reply text;
- environment variables: a function from names to values;
- Telegram's message ids.

Python's string built-ins have counterparts in the helper modules. They
carry their own lemmas but get no row below:

- **Strings**: `strip`, `split`, `join`, `replace` and `lower`, plus
  integer formatting.
- **Seqs**: order-preserving de-duplication.
- **Paths**: `Path.name`, `stem` and `suffix`.
- **Outcomes**: `Option` and `Result`.

## Model

| member | source | states |
|---|---|---|
| `Content.Basic` | kb/processors/base.py:103-126 | A new record carries the given kind, title, source and body, no tags, and no summary, English title or file. |
| `Content.FindKey` | kb/processors/base.py:85-90 | Finds the first table entry whose key satisfies the test, and returns nothing only when no key does. |
| `Content.Lookup` | kb/processors/base.py:81-91 | An exact key wins. Failing that, a case-insensitive match is used. There is no translation exactly when no key matches even ignoring case. |
| `Content.GetTagTranslation` | kb/processors/base.py:81-91 | A translation found is never empty, so a caller's truthiness test only asks whether there is one. |
| `Content.TranslationFound` | kb/processors/base.py:81-91 | There is no translation exactly when no key of the dictionary matches the tag ignoring case. A translation found is the value of a key that matches ignoring case. |
| `Content.TranslationsNonEmpty` | kb/processors/base.py:12-78 | Every translation in the table is non-empty. |
| `Content.TranslationExample` | kb/processors/base.py:12-91 | A Chinese tag looks up its English name through the table. |
| `Content.Emit` | kb/processors/base.py:139-153 | Adding a display keeps the rendering consistent: an unseen value is appended once with `#`, and a seen one changes nothing. |
| `Content.HashInjective` | kb/processors/base.py:139-153 | Two rendered tags are equal only when their displays are, so de-duplicating displays de-duplicates the output. |
| `Content.ChineseStep` | kb/processors/base.py:132-153 | One tag adds exactly its Chinese displays to the seen set, and only appends to the rendered tags. |
| `Content.ChineseFold` | kb/processors/base.py:128-154 | The Chinese tag loop keeps its seen set and its output in step. |
| `Content.ChineseTags` | kb/processors/base.py:128-154 | The Chinese tag line has no repeats, and every entry is `#` followed by a non-empty display. |
| `Content.ChineseSeen` | kb/processors/base.py:128-154 | After the loop, the seen set is exactly the union of every tag's displays. |
| `Content.ChineseNonEmptyDisplays` | kb/processors/base.py:134-136 | An empty display is never recorded. |
| `Content.NoEmptyDisplay` | kb/processors/base.py:134-136 | If no tag has an empty display, no union of displays holds one. |
| `Content.ChineseTagsExactly` | kb/processors/base.py:128-154 | The Chinese tag line holds exactly the hashed displays of all tags: nothing lost, nothing invented. |
| `Content.ChineseSkipsEmpty` | kb/processors/base.py:134-136 | A tag that cleans to nothing leaves the Chinese tag line unchanged. |
| `Content.ChineseAsciiOrder` | kb/processors/base.py:143-153 | An ASCII tag with a translation contributes its translation first, then the tag itself, each only if not seen before. |
| `Content.ChineseNonAscii` | kb/processors/base.py:139-142 | A non-ASCII tag contributes just itself, if not seen before. |
| `Content.Variant` | kb/processors/base.py:168-173 | The capitalised variant of a tag has the same length and stays ASCII when the tag is. |
| `Content.EmitWithVariant` | kb/processors/base.py:165-173 | Emitting a display and its variant records both, and only appends. |
| `Content.EnglishStep` | kb/processors/base.py:160-188 | One tag adds exactly its English displays to the seen set, and only appends. |
| `Content.EnglishFold` | kb/processors/base.py:156-189 | The English tag loop keeps its seen set and output in step. |
| `Content.EnglishTags` | kb/processors/base.py:156-189 | The English tag line has no repeats, and every entry is `#` followed by a non-empty display. |
| `Content.EnglishSeen` | kb/processors/base.py:156-189 | After the loop, the seen set is exactly the union of every tag's English displays. |
| `Content.EnglishTagsExactly` | kb/processors/base.py:156-189 | The English tag line holds exactly the hashed English displays of all tags. |
| `Content.EnglishSkipsUntranslated` | kb/processors/base.py:174-188 | A non-ASCII tag without a translation adds nothing to the English line. |
| `Content.EnglishOrder` | kb/processors/base.py:160-188 | A tag contributes its English base first, then its capitalised variant when that differs, each only if unseen. |
| `Content.SourceLine` | kb/processors/base.py:207-214 | A source line appears exactly when the record has a source. |
| `Content.TelegramLines` | kb/processors/base.py:191-255 | The message has at least seven lines and opens with the pinned Chinese title. |
| `Content.FormatForTelegram` | kb/processors/base.py:191-255 | The rendered message starts with the pinned Chinese title. |
| `Content.NoRuleAppend` | kb/processors/base.py:191-255 | Two blocks without a separator line concatenate to a block without one. |
| `Content.NoRuleMarked` | kb/processors/base.py:198-238 | A line that starts with a marker other than the rule character is never taken for the separator. |
| `Content.NoRuleParts` | kb/processors/base.py:201-219 | The summary, source and tag blocks never contain the separator line. |
| `Content.SectionsHaveNoRule` | kb/processors/base.py:193-253 | Neither language section contains the separator, so it occurs once, between them. |
| `Content.EnglishSectionLayout` | kb/processors/base.py:221-238 | The separator sits right after the Chinese section, two lines before the English title. The English summary falls back to the Chinese one. |
| `TextProcessor.TextProcess` | kb/processors/text.py:15-37 | Text input gives a text record with source "text" and a one-line title of at most 100 characters. |
| `TextProcessor.LongFirstLine` | kb/processors/text.py:24-30 | With a single line or an over-long first line, the 50-character title excerpt has no line break. |
| `TextProcessor.ShortFirstLine` | kb/processors/text.py:24-26 | A short first line is used as the title. |
| `TextProcessor.FirstPieceAt` | kb/processors/text.py:22-24 | The first piece of a split is the text before the first newline, and the rest rejoins to the remainder. |
| `TextProcessor.FirstLineTitle` | kb/processors/text.py:22-26 | With a short first line, the title is that line stripped and the body is everything after it, stripped. |
| `TextProcessor.WholeTextBody` | kb/processors/text.py:27-30 | A one-line text is its own body. Its title is the text when short, else the first 50 characters and an ellipsis. |
| `Link.TrimUrl` | kb/processors/link.py:44 | A trimmed URL is a prefix of the match and ends in no trailing punctuation. |
| `Link.TrimUrlIdempotent` | kb/processors/link.py:44 | Trimming twice is trimming once. |
| `Link.TrimUrlDot` | kb/processors/link.py:44 | A sentence-final full stop after a URL does not change the extracted URL. |
| `Link.TrimAll` | kb/processors/link.py:42-44 | Every match is trimmed, in place. |
| `Link.ExtractUrls` | kb/processors/link.py:36-48 | The URLs have no repeats. Each is a trimmed match, and every trimmed match is among them. When there is a match, the first URL is the first match, trimmed. |
| `Link.ExtractedFrom` | kb/processors/link.py:36-48 | Every extracted URL comes from some match. |
| `Link.ExtractedTrimmed` | kb/processors/link.py:36-48 | No extracted URL ends in trailing punctuation. |
| `Link.ExtractUrlsTrimmed` | kb/processors/link.py:36-48 | Every extracted URL is unchanged by trimming. |
| `Link.ExtractUrlsOrder` | kb/processors/link.py:39-48 | URLs come out in order of first occurrence. |
| `Link.ExtractUrlsIdempotent` | kb/processors/link.py:36-48 | Extracting from the extracted list returns it unchanged. |
| `Link.TrimKeepsScheme` | kb/processors/link.py:25-44 | Trimming never eats into the `http` scheme. |
| `Link.ExtractUrlsKeepScheme` | kb/processors/link.py:25-48 | Every extracted URL still starts with `http`. |
| `Link.NormalizeArxivUrl` | kb/processors/link.py:178-193 | The original URL is always kept alongside. A URL that is not an arXiv PDF link is fetched as is. |
| `Link.NormalizeArxivPdf` | kb/processors/link.py:187-191 | An arXiv PDF link, with any scheme and host prefix in front, is rewritten to the paper's abstract page, and the link as given is returned beside it. |
| `Link.BracketIdLen` | kb/processors/link.py:210 | The id prefix found is a bracketed run at the start of the title. |
| `Link.StripArxivId` | kb/processors/link.py:210 | The id prefix and the blanks after it are removed, and nothing else changes. |
| `Link.DigitRun` | kb/processors/link.py:210 | A digit run stops at the first non-digit. |
| `Link.BracketIdOf` | kb/processors/link.py:210 | `[digits.digits]` is recognised as an arXiv id prefix of exactly its length. |
| `Link.StripArxivIdOf` | kb/processors/link.py:210 | `[2401.12345]  Title` becomes `Title`. |
| `Link.ArxivTitle` | kb/processors/link.py:195-218 | The citation title wins, then the Open Graph title without its id, then the page heading, otherwise empty. |
| `Link.DashDate` | kb/processors/link.py:229 | Dates keep every character except `/`, which becomes `-`. |
| `Link.WithoutIsMap` | kb/processors/link.py:229 | After the replacement no `/` is left. |
| `Link.DashDateIsReplace` | kb/processors/link.py:229 | The per-character map agrees with the string `replace("/", "-")`. |
| `Link.DashDateExample` | kb/processors/link.py:229 | `2024/12/02` becomes `2024-12-02`. |
| `Link.ArxivDate` | kb/processors/link.py:220-251 | The citation date wins, then the online date, each dashed. When both are missing, the "Submitted on" date is used, then the dateline's date, then the empty string. |
| `Link.FirstNonEmpty` | kb/processors/link.py:164-165 | The result is empty exactly when every candidate is, and otherwise is one of them. |
| `Link.FirstNonEmptyAt` | kb/processors/link.py:137-165 | The first non-empty candidate is chosen. |
| `Link.TitlePrecedence` | kb/processors/link.py:137-165 | The title is chosen in order: Zhihu, arXiv, page metadata, HTML title, URL. |
| `Link.TitleChain` | kb/processors/link.py:137-165 | The title is empty only when every candidate is. A Zhihu title wins, then an arXiv title, and the result is always one of the candidates. |
| `Link.FirstOfThree` | kb/processors/link.py:164-165 | Over metadata title, HTML title and URL, the first non-empty one is chosen. |
| `Link.PageTitle` | kb/processors/link.py:137-165 | A page with a URL always has a title. A Zhihu page with a Zhihu title uses it, and an arXiv page with an arXiv title uses that. Other pages take the metadata title, then the HTML title, then the URL. |
| `Link.IsPdfResponse` | kb/processors/link.py:113-115 | The response is a PDF exactly when `pdf` occurs at some position of the lower-cased content type. |
| `Link.PageDate` | kb/processors/link.py:138-161 | A page date, when there is one, is never empty. |
| `Link.HtmlRecord` | kb/processors/link.py:170-176 | An HTML page gives a link record with the original URL as source, the chosen title and date, and at most 10000 characters of body. |
| `Link.LinkProcessAsWritten` | kb/processors/link.py:170-176 | As written, every HTML page ends in a constructor error for the `publish_date` keyword. Other paths behave as corrected. |
| `Link.LinkProcess` | kb/processors/link.py:72-176 | The fetch fails exactly on a bad status. Blocked Zhihu pages, PDFs and HTML pages each give a link record with the stripped input as source. |
| `Link.HtmlPathLost` | kb/processors/link.py:170-176 | On the HTML path, the code as written fails where the corrected code succeeds. |
| `Link.HtmlPathReached` | kb/processors/link.py:102-122 | Any successful non-PDF, non-Zhihu response takes the HTML path, so the loss is real. |
| `Files.Unquote` | kb/processors/file.py:80-81 | Matching outer quotes are removed. |
| `Files.CleanPath` | kb/processors/file.py:77-85 | The cleaned path is never longer than the trimmed input. A path without backslashes is only trimmed, and, when quoted, loses exactly its two outer quotes. |
| `Files.UnescapePlain` | kb/processors/file.py:84-85 | Without backslashes, unescaping changes nothing. |
| `Files.UnescapeEscapeSpaces` | kb/processors/file.py:84-85 | Turning `\ ` back into a space undoes a terminal's escaping of the spaces in a backslash-free path. |
| `Files.CleanPathEscaped` | kb/processors/file.py:77-85 | A dropped path whose spaces were escaped comes back as it was. |
| `Files.CleanPathQuoted` | kb/processors/file.py:77-85 | A dropped path wrapped in single or double quotes comes back exactly as inside the quotes. |
| `Files.UnescapeKeepsPrefix` | kb/processors/file.py:83-85 | Unescaping leaves a backslash-free prefix untouched. |
| `Files.TableGet` | kb/processors/file.py:18-28 | A lookup succeeds exactly when the suffix is a key, and returns that key's kind. |
| `Files.ExtensionTable` | kb/processors/file.py:18-28 | `.pdf` and the six image suffixes map to their kinds; nothing else is supported. |
| `Files.ExtensionKind` | kb/processors/file.py:18-28 | A suffix is a PDF exactly when it is `.pdf` and an image exactly when it is one of the six image suffixes; nothing else has a kind. |
| `Files.KindOfPath` | kb/processors/file.py:55-56 | The kind follows the lower-cased suffix: `.pdf` in any case is a PDF, the image suffixes in any case are images. |
| `Files.SupportedKeys` | kb/processors/file.py:18-28 | The supported suffixes are the table's keys, in order. |
| `Files.PathLikeShape` | kb/processors/file.py:47-54 | Text looks like a path exactly when it has a slash or backslash, or starts with `~`. |
| `Files.FileCanProcess` | kb/processors/file.py:30-56 | An accepted input is not a URL, names an existing file with a supported suffix, and looks like a path. |
| `Files.NonEmpty` | kb/processors/file.py:132-136 | Only non-empty page texts are kept. |
| `Files.PdfText` | kb/processors/file.py:131-138 | The body is empty exactly when every page's text is empty. |
| `Files.JoinNonEmpty` | kb/processors/file.py:136-138 | Joining non-empty pages is empty only when there are none. |
| `Files.PdfTextAppend` | kb/processors/file.py:132-138 | An empty page adds nothing. A page with text is appended after a blank line, or stands alone. |
| `Files.PdfTextOfEmptyPages` | kb/processors/file.py:132-138 | A PDF with no extractable text gives an empty body. |
| `Files.ImageFormat` | kb/processors/file.py:147 | The library's format is used when present. The suffix fallback never contains a dot. |
| `Files.ImageDescriptionLines` | kb/processors/file.py:148-154 | The description is the lines for name, format and size, and the printed width and height read back as the numbers. |
| `Files.ImageDescription` | kb/processors/file.py:147-150 | When the name and format hold no newline, splitting the description at newlines gives back its three lines. |
| `Files.ImageLinesSplit` | kb/processors/file.py:147-150 | The three lines of the description split back apart when the name and format hold no newline. |
| `Files.FileProcess` | kb/processors/file.py:75-120 | A missing file fails and names the resolved path. Otherwise the record's kind, title, source, size and truncated body follow from the file. |
| `Files.UnknownSuffixFile` | kb/processors/file.py:92-109 | A file with an unknown suffix becomes a bodiless file record titled by its stem. |
| `Files.PdfFile` | kb/processors/file.py:122-140 | A PDF's title is its metadata title or stem, and its body is the page text cut to 10000 characters. |
| `Files.ImageFile` | kb/processors/file.py:142-154 | An image is titled by its stem and described by name, format and size. |
| `Factory.IsFilePath` | kb/processors/factory.py:32-48 | A URL is never a file path, and an accepted path is the cleaned, home-expanded input. Conversely, a cleaned input that is not a URL, looks like a path, and expands to an existing regular file is always accepted. |
| `Factory.FirstUrl` | kb/processors/factory.py:92-95 | There is no embedded URL exactly when the pattern finds no match, and otherwise it is the first match, trimmed. |
| `Factory.RouteOf` | kb/processors/factory.py:68-100 | A file path takes the file route, or the unsupported route when the file processor refuses it. Otherwise a whole-input URL takes the link route. Otherwise the first embedded URL, trimmed, is used, and plain text is left exactly when the pattern finds no URL. |
| `Factory.SlashPrefix` | kb/processors/factory.py:40-41 | Any `/` or `./` prefix already counts as containing a slash. |
| `Factory.AcceptedFileCanProcess` | kb/processors/factory.py:71-84 | For an existing path, the file extractor accepts it exactly when its suffix is supported. |
| `Factory.Splice` | kb/processors/factory.py:103-104 | Text around an embedded URL is put in front of the fetched body, and nothing else changes. |
| `Factory.DetectAndProcess` | kb/processors/factory.py:51-110 | Each route has its outcome: a supported file, an unsupported file, a URL, a URL inside text, or plain text. The link routes fetch with the record built as written or with the date accepted, as the caller chooses. |
| `Factory.HtmlLinkAsWritten` | kb/processors/factory.py:86-89 | As written, a message that is one URL to an HTML page fails with the `publish_date` error. With the date accepted, it succeeds. |
| `Factory.FileIsHardStop` | kb/processors/factory.py:71-84 | An existing path is never treated as a link or as text. An unsupported one is an error naming the suffix. |
| `Factory.SpliceShape` | kb/processors/factory.py:103-104 | After splicing, the body starts with the surrounding text and ends with the fetched body. |
| `Factory.DetectInputType` | kb/processors/factory.py:113-134 | The answer is "link" exactly when the stripped input starts with `http://` or `https://`, and "text" exactly when it is neither a URL nor an accepted file path. The answer is always one of the four kinds. |
| `Factory.HttpUnescape` | kb/processors/factory.py:17-29 | Unescaping spaces keeps a URL a URL. |
| `Factory.HttpCleanPath` | kb/processors/factory.py:17-29 | Cleaning a stripped URL keeps it a URL. |
| `Factory.HttpIsNotFile` | kb/processors/factory.py:32-48 | A stripped URL input is never taken for a file path. |
| `Factory.DetectInputTypeAgrees` | kb/processors/factory.py:113-134 | The classifier says "file" or "unsupported_file" exactly when the processing route goes that way. |
| `Config.DefaultsWellFormed` | kb/config.py:66-104 | The default presets have no repeats and new tags are allowed. The providers are exactly the seven listed, the default among them. |
| `Config.AddPresetTag` | kb/config.py:194-199 | A tag is appended only if absent, and repeat-freedom is kept. |
| `Config.AddPresetTagIdempotent` | kb/config.py:194-199 | Adding the same tag twice is adding it once. |
| `Config.SetNested` | kb/config.py:187-191 | Setting a value keeps a dictionary a dictionary, and fails on a non-dictionary. |
| `Config.SetNestedGet` | kb/config.py:187-191 | The value set is read back at its path. |
| `Config.SetNestedOthers` | kb/config.py:187-191 | Every path diverging from the one set reads as before. |
| `Config.EmptyDictGet` | kb/config.py:189-190 | A fresh intermediate dictionary holds nothing. |
| `Config.ApplyMappings` | kb/config.py:161-177 | With no variable set, the configuration is untouched. |
| `Config.ParsePresetTags` | kb/config.py:180-182 | Parsed presets are stripped, non-empty and comma-free. |
| `Config.KeepTrimmed` | kb/config.py:181-182 | Only stripped non-empty pieces are kept. |
| `Config.StripClean` | kb/config.py:181 | A stripped non-empty comma-free piece is a clean tag. |
| `Config.ParsePresetTagsJoin` | kb/config.py:180-182 | A comma-joined list of clean tags parses back to the same list. |
| `Config.KeepTrimmedClean` | kb/config.py:181-182 | Clean pieces are kept as they are. |
| `Config.ApplyMappingsSets` | kb/config.py:161-177 | For mappings to diverging paths, each set variable's value ends up at its path. |
| `Config.DivergeSymmetric` | kb/config.py:162-175 | Divergence of two paths does not depend on their order. |
| `Config.DivergeAtSecond` | kb/config.py:162-175 | Paths differing in their second key diverge. |
| `Config.SecondKeysTable` | kb/config.py:162-175 | Each mapping's second key is listed. |
| `Config.SecondKeysDistinct` | kb/config.py:162-175 | The mappings' second keys are pairwise distinct. |
| `Config.EnvMappingsIndependent` | kb/config.py:162-175 | The source's mapping table writes to pairwise diverging paths. |
| `Config.ApplyPresetsEffect` | kb/config.py:179-184 | A preset-tags variable with at least one tag replaces the preset list and nothing else. One with no tags changes nothing. |
| `Config.OverrideMappings` | kb/config.py:159-177 | Each set environment variable of the table lands at its configuration path. |
| `Config.OverrideNothing` | kb/config.py:159-184 | An empty environment leaves the configuration as loaded. |
| `Config.ApplyPresets` | kb/config.py:179-184 | With no tag in the variable, the tree is unchanged. Otherwise the parsed tags are found at `tags.presets` after success, and a tree that is not a mapping fails. |
| `Config.MapVariables` | kb/config.py:159-177 | With none of the table's variables set, the tree is unchanged. |
| `Config.OverrideFromEnv` | kb/config.py:159-184 | With nothing set, the tree is unchanged. A success means the variable table applied cleanly, and a non-empty preset list is then found at `tags.presets`. Without preset tags the result is the variable table's. |
| `Config.OverrideSets` | kb/config.py:159-184 | After the whole override, every variable that is set is found at its configuration path: the preset step does not disturb the table's keys. |
| `Config.NoTagsKey` | kb/config.py:161-172 | No variable of the table writes under `tags`. |
| `Config.GetProviderConfig` | kb/config.py:202-210 | The name used is the requested one, or the default when none or empty is given. It succeeds exactly when that name is a declared provider, answering with its settings, or is the `default_provider` attribute. Otherwise the error names it. |
| `Config.ProviderLookup` | kb/config.py:202-210 | Over the default configuration, a name succeeds exactly when it is empty, one of the seven providers, or `default_provider`. With no name, a configuration whose default is declared answers with that provider's settings. |
| `Config.ProviderLookupExamples` | kb/config.py:202-210 | The default is the OpenAI provider, an empty name means the default, and an unknown name is an error. |
| `Replies.UserMessage` | kb/llm/base.py:90-93 | The prompt is the request followed by the content cut to the excerpt length, and the whole content when it fits. |
| `Replies.LabelShape` | kb/llm/base.py:107-113 | Every label is four characters, with no colon of either width, no newline and no leading blank. |
| `Replies.LabelledUnique` | kb/llm/base.py:107-113 | A line carries at most one of the four labels. |
| `Replies.FieldOf` | kb/llm/base.py:107-114 | A line's field is the one label it starts with, if any. |
| `Replies.FieldOfUnique` | kb/llm/base.py:107-114 | A field assignment that agrees with the labels is the only one. |
| `Replies.Put` | kb/llm/base.py:107-114 | Setting one field leaves the other three alone. |
| `Replies.LastMatch` | kb/llm/base.py:105-114 | It finds the last line labelled with the field, or none when no line is. |
| `Replies.GetStep` | kb/llm/base.py:105-114 | A line changes only the field it is labelled with. |
| `Replies.FinalConsLater` | kb/llm/base.py:105-114 | A later line with the label makes the earlier lines irrelevant. |
| `Replies.FinalAt` | kb/llm/base.py:105-114 | A field's value comes from the last line labelled with it. |
| `Replies.FinalConsFirst` | kb/llm/base.py:105-114 | Without a later label, the first line decides. |
| `Replies.FinalCons` | kb/llm/base.py:105-114 | The final value is determined line by line from the front. |
| `Replies.FoldFinal` | kb/llm/base.py:105-114 | Parsing the whole reply leaves each field at the value of its last labelled line, or at its default. |
| `Replies.Parse` | kb/llm/base.py:95-118 | With an original title, the English title is never empty. |
| `Replies.ParseFields` | kb/llm/base.py:98-118 | Each field comes from its last labelled line, with empty defaults. The English title falls back to the original. |
| `Replies.LineShape` | kb/llm/base.py:60-64 | A rendered line of a carried value is already stripped, holds no newline and is non-empty. |
| `Replies.LineField` | kb/llm/base.py:107-113 | A rendered line is recognised as its own field. |
| `Replies.LineAfterColon` | kb/llm/base.py:108 | After its label's colon, a rendered line is exactly the value. |
| `Replies.LineRead` | kb/llm/base.py:108-114 | The corrected reading recovers the value of a rendered line. |
| `Replies.LinesOfJoin` | kb/llm/base.py:95-106 | Stripped, non-blank lines joined with newlines split back into themselves. |
| `Replies.FourLines` | kb/llm/base.py:95-106 | Four such lines split back into the same four. |
| `Replies.RenderLines` | kb/llm/base.py:60-64 | A rendered reply splits into its four labelled lines. |
| `Replies.StepLabelled` | kb/llm/base.py:107-114 | A labelled line sets its field to the value it carries. |
| `Replies.FoldCons` | kb/llm/base.py:105 | Parsing proceeds from the first line. |
| `Replies.FoldChain` | kb/llm/base.py:105-114 | Four lines are parsed one after another. |
| `Replies.FoldFour` | kb/llm/base.py:105-114 | Four differently labelled lines set the four fields. |
| `Replies.FoldRender` | kb/llm/base.py:105-114 | Parsing the four rendered lines gives each field its value. |
| `Replies.ParseRender` | kb/llm/base.py:98-118 | A reply in the requested format parses back to exactly the four values, under the corrected reading. |
| `Replies.AsWrittenDropsColonPrefix` | kb/llm/base.py:108-114 | As written, a value holding a full-width colon loses everything before it, where the corrected reading keeps it. |
| `Replies.RetranslationBounds` | kb/llm/base.py:121-128 | A short title is re-translated when it has at most one character per English word, never at 1.2 or more, and shorter titles trigger too. |
| `Replies.NeedsRetranslation` | kb/llm/base.py:121-128 | The trigger needs both titles present and a Chinese title shorter than two characters per English word. It always fires for a non-empty title with at most one character per word, and never at 1.2 or more. |
| `Replies.SummarizeBilingual` | kb/llm/base.py:95-130 | Only the Chinese title can differ from the parsed reply. It becomes the stripped translation when the trigger fires and stays the parsed one when it does not. The English title is never empty while there is an original title. |
| `Replies.SummarizeRendered` | kb/llm/base.py:95-130 | A reply in the requested format gives back its four values under the corrected reading. The Chinese title is replaced by the translation exactly when it is short against the original title. |
| `Replies.LastLower` | kb/llm/base.py:196 | The canonical preset for a lower-case key is the last preset with that form, and none exists only when no preset lowers to it. |
| `Replies.MatchPreset` | kb/llm/base.py:198-202 | An exact preset is kept as is. Otherwise a case-insensitive match gives a preset, and there is no match only when none exists. |
| `Replies.Tokens` | kb/llm/base.py:194 | Splitting always gives at least one token. |
| `Replies.MatchAll` | kb/llm/base.py:197-203 | Only presets are returned, at most one per token. |
| `Replies.SuggestTags` | kb/llm/base.py:193-203 | Suggested tags are all presets. |
| `Replies.MatchAllAppend` | kb/llm/base.py:197-202 | Matching distributes over concatenation of the tokens. |
| `Replies.MatchAllDrops` | kb/llm/base.py:197-202 | Tokens matching no preset are dropped. |
| `Replies.MatchAllPresets` | kb/llm/base.py:197-202 | Tokens that are presets come through unchanged and in order. |
| `Replies.PlainTagsFixed` | kb/llm/base.py:194 | Plain tags are unchanged by stripping. |
| `Replies.JoinedTokens` | kb/llm/base.py:193-194 | A comma-joined list of plain tags splits back into that list. |
| `Replies.SuggestTagsJoin` | kb/llm/base.py:193-203 | A reply listing presets with commas yields exactly those presets. |
| `Replies.CanonicalCasing` | kb/llm/base.py:196-202 | A tag in other casing is replaced by the last preset sharing its lower-case form. |
| `Replies.LastLowerAt` | kb/llm/base.py:196 | The last preset with a given lower-case form is the canonical one. |
| `Tagger.KeepUserTokens` | kb/tagger.py:258-263 | Only non-empty tokens with no separators are kept. |
| `Tagger.WordToken` | kb/tagger.py:258-263 | A separator-free word is unchanged by stripping, and without its `#` it is still a word. |
| `Tagger.ParseUserInput` | kb/tagger.py:244-265 | Every parsed tag is a non-empty word without spaces or commas. |
| `Tagger.DropHashes` | kb/tagger.py:260-261 | Each word loses at most one leading `#`. |
| `Tagger.KeepUserTokensAll` | kb/tagger.py:258-263 | Words that stay non-empty without their `#` are all kept. |
| `Tagger.ParseUserInputJoin` | kb/tagger.py:244-265 | Space-separated tags parse back to the same tags without their leading `#`. |
| `Tagger.Filter` | kb/tagger.py:193-196 | A filter keeps exactly the entries on its side of the vocabulary. |
| `Tagger.ValidateTags` | kb/tagger.py:172-198 | Valid tags are in the vocabulary, and new tags are not. |
| `Tagger.CleanedAppend` | kb/tagger.py:184-191 | Cleaning works tag by tag. |
| `Tagger.FilterAppend` | kb/tagger.py:193-196 | Filtering distributes over concatenation. |
| `Tagger.ValidatePartition` | kb/tagger.py:172-198 | Validation is the cleaned tags split by vocabulary membership, in input order. |
| `Tagger.FilterSplits` | kb/tagger.py:193-196 | The two sides together are a permutation of the input: nothing lost, nothing duplicated. |
| `Tagger.AddNewTag` | kb/tagger.py:200-222 | A tag is added exactly when new tags are allowed and it is absent after cleaning. Then it is appended, and otherwise nothing changes. |
| `Tagger.AddNewTagOnce` | kb/tagger.py:200-222 | Adding keeps the vocabulary repeat-free, and a second attempt changes nothing. |
| `Tagger.Persisted` | kb/tagger.py:279-281 | Persisting one tag only grows the vocabulary, by at most one, without repeats. |
| `Tagger.PersistAll` | kb/tagger.py:279-281 | Persisting only grows the vocabulary, and with new tags disallowed it changes nothing. |
| `Tagger.ProcessTags` | kb/tagger.py:267-284 | The result is the valid tags then the new tags, and the vocabulary only grows. |
| `Tagger.PersistAllContains` | kb/tagger.py:279-281 | Every persisted tag ends up in the vocabulary. |
| `Tagger.ProcessTagsClosed` | kb/tagger.py:267-284 | With the corrected persistence and new tags allowed, every returned tag is in the vocabulary afterwards. |
| `Tagger.FilterNoneOutside` | kb/tagger.py:193-196 | Nothing is new when the vocabulary holds every tag. |
| `Tagger.ProcessTagsTwice` | kb/tagger.py:267-284 | Processing the same tags again adds nothing. |
| `Tagger.CleanedIn` | kb/tagger.py:267-284 | After processing with the corrected persistence and new tags allowed, every cleaned tag is in the vocabulary. |
| `Tagger.FilterKeeps` | kb/tagger.py:193-196 | Every entry lands on its own side. |
| `Tagger.HashedStripped` | kb/tagger.py:185 | A hash-prefixed word ending in no space is unchanged by stripping. |
| `Tagger.DoubleHash` | kb/tagger.py:185-191 | `##w` cleans to `#w`, which cleans to `w`. |
| `Tagger.ValidateOne` | kb/tagger.py:172-198 | One tag outside the vocabulary is returned as new. |
| `Tagger.ProcessTagsAsWrittenLoses` | kb/tagger.py:276-284 | As written, `##w` is returned as `#w` while `w` is persisted, so the returned tag is missing from the vocabulary. The corrected persistence keeps it. |
| `Tagger.HashTrimAll` | kb/tagger.py:91-92 | Every token is stripped of blanks and `#`s, in place. |
| `Tagger.Extras` | kb/tagger.py:91-95 | Exactly the tokens that are non-empty, at most 30 characters and outside the presets are kept. |
| `Tagger.PresetsIn` | kb/tagger.py:156-159 | Exactly the non-empty tokens that are presets are kept. |
| `Tagger.Prefix` | kb/tagger.py:97 | A slice keeps the first `count` entries, or all of them. |
| `Tagger.ParseExtraTags` | kb/tagger.py:84-97 | At most `count` extra tags, each short, non-empty and outside the presets. |
| `Tagger.ListedTrim` | kb/tagger.py:92 | A listed tag is unchanged by the trim. |
| `Tagger.ListedTokens` | kb/tagger.py:91-92 | Listed tags are unchanged by the trim. |
| `Tagger.ExtrasAll` | kb/tagger.py:91-95 | Tags that pass all tests are all kept, in order. |
| `Tagger.PresetsInAll` | kb/tagger.py:156-159 | Presets come through unchanged and in order. |
| `Tagger.TokensJoin` | kb/tagger.py:88 | A comma-joined list of listed tags splits back into that list. |
| `Tagger.ParseExtraTagsJoin` | kb/tagger.py:84-97 | A reply listing acceptable tags yields the first `count` of them. |
| `Tagger.StripJoinedWords` | kb/tagger.py:84 | Words joined with a separator are unchanged by stripping. |
| `Tagger.TagsPart` | kb/tagger.py:154 | The tags part is a suffix of the line. |
| `Tagger.TitleStep` | kb/tagger.py:151-166 | A line only appends to the two lists, and an unlabelled line changes nothing. |
| `Tagger.TitleFold` | kb/tagger.py:151-166 | Preset lines yield only presets, and extra lines only acceptable extras. |
| `Tagger.ParseTitleTags` | kb/tagger.py:144-168 | The preset tags are presets, and at most five acceptable extras are returned. |
| `Tagger.HeadTagsPart` | kb/tagger.py:154 | After a labelled head, the tags part is the rest of the line. |
| `Tagger.HeadStripped` | kb/tagger.py:152 | A labelled line ending in no space is unchanged by stripping. |
| `Tagger.ListedJoin` | kb/tagger.py:151-155 | A joined tag list is non-empty, stripped and one line. |
| `Tagger.HeadLine` | kb/tagger.py:151-155 | A labelled line's tags part is exactly the joined tags. |
| `Tagger.HeadsOf` | kb/tagger.py:153-160 | The preset head marks a preset line, and the extra head an extra line that is not a preset line. |
| `Tagger.TitleStepPreset` | kb/tagger.py:153-159 | A preset line appends exactly its preset tokens. |
| `Tagger.TitleStepExtra` | kb/tagger.py:160-166 | An extra line appends exactly its acceptable tokens. |
| `Tagger.TitleFoldSnoc` | kb/tagger.py:151-166 | Lines are processed in order. |
| `Tagger.TitleFoldTwo` | kb/tagger.py:151-166 | A preset line then an extra line give both lists. |
| `Tagger.TwoLines` | kb/tagger.py:144-152 | Two stripped lines joined with a newline split back into themselves. |
| `Tagger.ParseTwoLines` | kb/tagger.py:144-168 | A two-line reply yields its preset tags and its first five extras. |
| `Tagger.ParseTitleTagsReply` | kb/tagger.py:144-168 | A reply in the requested format parses back to its presets and first five extras. |
| `TagCalls.SuggestTags` | kb/tagger.py:27-45 | Without a model or with a blank body there are no suggestions, and every suggestion is a preset. |
| `TagCalls.GenerateExtraTags` | kb/tagger.py:47-99 | Without a model or with a blank body there are no extras. Otherwise there are at most `count`, each acceptable. |
| `TagCalls.TitleContext` | kb/tagger.py:118-120 | The prompt context starts with the title line. |
| `TagCalls.GenerateTitleTags` | kb/tagger.py:101-170 | Without a model or with a blank title there are no tags. Otherwise the presets are presets and there are at most five extras. |
| `Publisher.PrivateId` | kb/publisher.py:82-85 | The `-100` prefix is removed when present, and otherwise the id is kept. |
| `Publisher.MessageUrl` | kb/publisher.py:73-85 | Every message URL is on `https://t.me/` and ends with the message id. |
| `Publisher.NoSlashInId` | kb/publisher.py:78 | A printed message id has no slash. |
| `Publisher.SplitSlash` | kb/publisher.py:78 | Splitting at slashes peels off a slash-free head. |
| `Publisher.SplitTail` | kb/publisher.py:78 | A slash-free name and an id split into the two. |
| `Publisher.HostPieces` | kb/publisher.py:78 | The host prefix is made of the scheme, an empty piece and the host. |
| `Publisher.SplitHost` | kb/publisher.py:78 | A URL on `t.me` splits into scheme, empty piece, host and the path pieces. |
| `Publisher.NoSlashAfterAt` | kb/publisher.py:77 | Dropping the `@` keeps a name slash-free. |
| `Publisher.PublicUrlParts` | kb/publisher.py:76-78 | A public channel's URL splits into host, channel name and message id. |
| `Publisher.PrivateUrlShape` | kb/publisher.py:80-85 | A private channel's URL goes under `/c/` with the shortened id. |
| `Publisher.NoSlashInPrivateId` | kb/publisher.py:82-84 | Shortening keeps an id slash-free. |
| `Publisher.PrivateUrlParts` | kb/publisher.py:80-85 | A private channel's URL splits into host, `c`, channel id and message id. |
| `Publisher.MessageIdReadsBack` | kb/publisher.py:73-85 | The message id can be read back from the URL's last piece. |
| `Publisher.FullAndShortIdAgree` | kb/publisher.py:82-85 | A channel id with and without `-100` gives the same link. |
| `Publisher.DeliveryOf` | kb/publisher.py:31-39 | Images and PDFs with a file go as photo and document. Everything else goes as text, and each send carries the rendered message. |
| `Publisher.Publish` | kb/publisher.py:22-39 | The send carries the rendered message and goes as text exactly when there is no file or the record is neither an image nor a PDF; a media send uses the record's file. The answer is a `https://t.me/` link ending in the id Telegram reports. |
| `Publisher.OnlyFilesAsMedia` | kb/publisher.py:34-39 | Other kinds go as text even when a file is attached, as do records without a file. |
| `Bot.EscapeChar` | kb/bot.py:460-465 | A character is kept, or preceded by one backslash. |
| `Bot.EscapeSet` | kb/bot.py:460-465 | Escaping never shortens the text. |
| `Bot.EscapeMd` | kb/bot.py:458-465 | Escaping empty text gives empty text. |
| `Bot.ReplaceCharCons` | kb/bot.py:464 | Replacing a character proceeds from the front. |
| `Bot.ReplaceOneMore` | kb/bot.py:463-464 | Replacing one more special character escapes it as well, without double-escaping the earlier ones. |
| `Bot.ReplaceEscaped` | kb/bot.py:464 | An already escaped character is passed over. |
| `Bot.EscapeNone` | kb/bot.py:460-465 | Escaping no characters changes nothing. |
| `Bot.ReplaceEachEscapes` | kb/bot.py:463-464 | The chained replacements escape exactly the set of characters replaced so far. |
| `Bot.EscapeMdPerCharacter` | kb/bot.py:458-465 | The chained replacements equal one per-character escape over the five Markdown specials. |
| `Bot.UnescapeEscape` | kb/bot.py:460-465 | Dropping the escapes recovers the text. |
| `Bot.EscapeMdRoundTrip` | kb/bot.py:458-465 | The escaped preview loses no information: it unescapes to the original text. |
| `Bot.MessageInput` | kb/bot.py:183-199 | A message without URLs is not processed. Otherwise the input is either the whole text or one of its extracted URLs. |
| `Bot.MessageInputUrls` | kb/bot.py:190-199 | A URL repeated with a trailing full stop is taken alone, and two different URLs send the whole text. |
| `Bot.NewPending` | kb/bot.py:263-270 | The pending entry starts with exactly the suggested and extra tags selected. |
| `Bot.Start` | kb/bot.py:256-270 | Auto-publish publishes the record, changed only in its tags, which are the suggested then the extra tags, and stores nothing. Preview stores for this chat the record with exactly the suggested and extra tags selected. No other chat's entry changes. |
| `Bot.ApplySummary` | kb/bot.py:216-227 | A parsed summary sets both titles, falling back to the original title, and both summaries from the reply. Only those four fields change, and without a summary nothing does. |
| `Bot.GatherTags` | kb/bot.py:233-251 | No model means no tags. Suggestions are presets, and there are at most five acceptable extras. A record with a body and at least one suggestion from it keeps those suggestions and the extras from the body. A record without a body, or whose body gave no suggestion, is tagged from its title and source instead. |
| `Bot.AppendMissing` | kb/bot.py:339-342 | Missing tags are appended once each, after the existing ones and in order. |
| `Bot.ButtonTags` | kb/bot.py:329-343 | The button tags start with the valid suggestions and the extras, and include every preset. |
| `Bot.TagButton` | kb/bot.py:347-349 | A button carries `tag:` and the tag, and is marked exactly when the tag is selected. |
| `Bot.TagButtons` | kb/bot.py:346-350 | One button per tag, in order. |
| `Bot.Rows` | kb/bot.py:345-356 | Rows are non-empty, at most three wide, and full except for the last. |
| `Bot.RowsFlatten` | kb/bot.py:345-356 | The rows hold exactly the buttons in order, in the smallest possible number of rows. |
| `Bot.Keyboard` | kb/bot.py:324-369 | The keyboard ends with the two action rows, and every tag row is at most three wide. |
| `Bot.KeyboardTagButtons` | kb/bot.py:346-357 | The tag rows hold exactly the first twelve button tags. |
| `Bot.ButtonTagsOrder` | kb/bot.py:329-343 | The valid suggestions and extras come first, then the remaining presets. |
| `Bot.NewPendingMarked` | kb/bot.py:263-270 | In a fresh preview, every suggested or extra tag's button is marked. |
| `Bot.Toggle` | kb/bot.py:392-395 | Pressing a tag flips its selection and no other. |
| `Bot.SelectAll` | kb/bot.py:407-413 | Select-all chooses at most twelve tags, all of them suggested, extra or preset. The first twelve of the suggested and extra tags are always among them. |
| `Bot.Redraw` | kb/bot.py:324-399 | A redraw stores the updated entry for this chat. The new keyboard shows the first twelve offered tags in order, each marked exactly when selected, above the two action rows. |
| `Bot.HandleCallback` | kb/bot.py:371-426 | Unauthorised presses are ignored, and presses on expired previews report so. Other chats are never touched. |
| `Bot.NotTagData` | kb/bot.py:389 | The action buttons' data is not tag data. |
| `Bot.ToggleTwice` | kb/bot.py:389-399 | Pressing the same tag button twice restores the selection. |
| `Bot.TagPress` | kb/bot.py:389-399 | A tag press toggles exactly that tag. |
| `Bot.ToggleInvolution` | kb/bot.py:392-395 | Toggling twice is the identity. |
| `Bot.ClearAndSelectAll` | kb/bot.py:401-413 | Clear empties the selection. Select-all chooses at most twelve tags, each suggested, extra or preset, and selects the first twelve of the suggested and extra tags. |
| `Bot.PublishAndCancelRemove` | kb/bot.py:415-426 | Publish and cancel both end the chat's pending entry. Publish takes the selected tags with it. |
| `Bot.CmdMode` | kb/bot.py:160-168 | The mode flips exactly when the user is authorised. |
| `Bot.IsAuthorized` | kb/bot.py:72-77 | Everybody is authorised when no admin is configured; otherwise exactly the admin is. |
| `Bot.StrangerIgnored` | kb/bot.py:160-168 | With an admin configured, any other user's button press changes nothing and is ignored, and `/mode` keeps the mode. |
| `Bot.CmdCancel` | kb/bot.py:170-177 | The chat's entry is dropped, and the reply says whether there was one. |

## Left out

- I/O is left out: file reads, HTTP, trafilatura, pypdf, PIL, mimetypes, YAML and `.env` loading and saving, and the Telegram API. Their results are model inputs: a file-system predicate, responses, page facts, PDF and image facts, an environment function, and message ids.
- The regular-expression HTML scrapers are not modelled: the arXiv and Zhihu meta tags (kb/processors/link.py:195-333) and `_extract_title_from_html` (kb/processors/link.py:335-341). Their captures are inputs; how each capture is chosen and cleaned is modelled.
- Zhihu's content extraction and timestamp formatting (kb/processors/link.py:253-333) are left out because they are regex scraping and clock formatting. Only the title and date they yield are inputs.
- The language-model adapters (kb/llm/anthropic_llm.py, gemini_llm.py, openai_compat.py, factory.py) are left out because they are remote calls. Replies are inputs, and `_translate_title` (kb/llm/base.py:132-145) is an input string.
- The system prompts' wording is left out; only the user-message excerpts and the reply formats are modelled.
- kb/cli.py and `format_tags_display` (kb/tagger.py:224-242) are left out because they are command-line presentation outside the bot's core.
- Concurrency and asyncio are left out. Each handler is one step over the per-chat map, and exceptions in the summary and tag steps are modelled as "no result".
- `_show_preview`'s message text (kb/bot.py:279-322) is left out; the keyboard it attaches is modelled.
- The success and failure reply texts are left out.
- `_get_admin_user_id`'s integer parsing (kb/bot.py:62-70) is left out; the admin id arrives already parsed as `Option<int>`.
- `Bot.PublishAndCancelRemove`: the tags are published as the selected set, not as `list(selected_tags)`, whose order depends on Python's string hashing.
- `Tagger.AddNewTag`: the config file reload after `add_preset_tag` (kb/tagger.py:219-221) is taken to return the in-memory vocabulary plus the tag.
- `Link.BracketIdLen` and `Link.StripArxivId`: a digit is ASCII `0`-`9`, whereas `\d` in the Python pattern at kb/processors/link.py:210 also matches every other Unicode decimal digit, so an id written in such digits is not stripped by the model.
- Case folding is ASCII only; `str.lower` on other scripts is not modelled. This affects `Content.Lookup`, `Replies.LastLower` and `Replies.MatchPreset`.
- `Replies.RetranslationBounds`: the float comparison `chars < words * 1.2` is stated exactly as `5 * chars < 6 * words`, without floating point.
- `Files.FileProcess`: `expanduser`, `resolve` and the MIME guess from `mimetypes` are inputs, given by the file system and the file facts.
- `FileProcessor.is_file_path` (kb/processors/file.py:58-73) is not modelled, because nothing in the core calls it.
- `TextProcessor.TextProcess`: the ensures bounds the title by 100 characters. The exact 53-character clip of a long line is stated by `TextProcessor.WholeTextBody`.
- `Config.GetProviderConfig`: `getattr` on configuration attributes other than the providers is modelled as a "not a provider" attribute.
- Link `can_process` and the other extractors' `can_process` are covered by the factory routing (`Factory.DetectAndProcess`). They get no separate member.

## Findings

| source | as written | input that shows it | evidently intended | confidence | as-written member | corrected member |
|---|---|---|---|---|---|---|
| kb/processors/link.py:170-176 | The HTML path builds `ProcessedContent(..., publish_date=...)`, but the dataclass (kb/processors/base.py:103-126) declares no `publish_date` field, so the call raises `TypeError`. | Any 200 response with an HTML content type for a non-Zhihu URL, e.g. `https://example.com/` | The page becomes a link record carrying its title, body and date | not executed | `Link.LinkProcessAsWritten` | `Link.LinkProcess` |
| kb/llm/base.py:108-114 | Each value is read with `line.split(":", 1)[-1].split("：", 1)[-1]`, which also cuts the value at its first full-width colon. | The reply line `标题中文: 稳定强化学习：方法与实践` gives the title `方法与实践` | The whole value after the label (the prompt at line 73 asks for the "A：B" shape) | not executed | `Replies.AsWrittenDropsColonPrefix` | `Replies.ParseRender` |
| kb/tagger.py:276-284 | `validate_tags` strips one `#` and `add_new_tag` strips another, so the returned tag and the persisted tag differ. | User tag `##w` with `w` and `#w` not presets: `#w` is returned and `w` is persisted | Every returned new tag is in the vocabulary afterwards | not executed | `Tagger.ProcessTagsAsWrittenLoses` | `Tagger.ProcessTagsClosed` |
