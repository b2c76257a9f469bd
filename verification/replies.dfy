/** Reading the language model's replies (kb/llm/base.py): the four
    labelled lines of a bilingual summary, the re-translation trigger for
    a short Chinese title, and the preset matching of suggested tags. The
    replies themselves are inputs; only their parsing is modelled. */
module Replies {
  import opened Outcomes
  import opened Strings
  import opened Seqs

  // ---------------------------------------------------------------------
  // Prompt excerpts

  /** How much content the summary prompt and the tag prompt include. */
  const SummaryExcerpt: nat := 5000
  const TagExcerpt: nat := 3000

  const SummaryRequest: string := "请为以下内容生成双语标题和摘要：\n\n"
  const TagRequest: string := "分析以下内容并选择所有相关的预设标签：\n\n"

  /** The user message of a prompt: a fixed request followed by a prefix of
      the content of at most `limit` characters. */
  function UserMessage(request: string, content: string, limit: nat): (r: string)
    ensures StartsWith(r, request)
    ensures var body := r[|request|..];
            |body| <= limit && StartsWith(content, body)
            && (|content| <= limit ==> body == content)
            && (|content| > limit ==> |body| == limit)
  {
    request + Take(content, limit)
  }

  // ---------------------------------------------------------------------
  // The bilingual summary reply

  datatype Field = TitleCn | SummaryCn | TitleEn | SummaryEn

  function Label(f: Field): string {
    match f
    case TitleCn => "标题中文"
    case SummaryCn => "摘要中文"
    case TitleEn => "标题英文"
    case SummaryEn => "摘要英文"
  }

  /** Every label is four characters, none of them a colon, a line break or
      a space. */
  lemma LabelShape(f: Field)
    ensures var r := Label(f);
            |r| == 4 && ':' !in r && '：' !in r && '\n' !in r && !IsSpace(r[0])
  {
  }

  /** A line carries field `f` when it starts with the label followed by
      an ASCII or a full-width colon. */
  predicate Labelled(line: string, f: Field) {
    |line| >= 5 && line[..4] == Label(f) && (line[4] == ':' || line[4] == '：')
  }

  lemma LabelledUnique(line: string, f: Field, g: Field)
    requires Labelled(line, f) && Labelled(line, g)
    ensures f == g
  {
  }

  /** The `if/elif` chain on a stripped line: the field it carries, if any. */
  function FieldOf(line: string): (r: Option<Field>)
    ensures forall f :: r == Some(f) <==> Labelled(line, f)
    ensures r.Some? ==> |line| >= 5
  {
    var r := if Labelled(line, TitleCn) then Some(TitleCn)
      else if Labelled(line, SummaryCn) then Some(SummaryCn)
      else if Labelled(line, TitleEn) then Some(TitleEn)
      else if Labelled(line, SummaryEn) then Some(SummaryEn)
      else None;
    FieldOfUnique(line, r);
    r
  }

  lemma FieldOfUnique(line: string, r: Option<Field>)
    requires r.Some? ==> Labelled(line, r.value)
    requires r.None? ==> forall f :: !Labelled(line, f)
    ensures forall f :: r == Some(f) <==> Labelled(line, f)
  {
    forall f | Labelled(line, f) ensures r == Some(f) {
      LabelledUnique(line, r.value, f);
    }
  }

  /** How a labelled line's value is read. */
  datatype Reading =
    | AsWritten   // `line.split(":", 1)[-1].split("：", 1)[-1].strip()`
    | Corrected   // everything after the five-character label, stripped

  function Value(reading: Reading, line: string): string
    requires |line| >= 5
  {
    match reading
    case AsWritten => Strip(AfterFirst(AfterFirst(line, ':'), '：'))
    case Corrected => Strip(line[5..])
  }

  datatype Bilingual = Bilingual(titleCn: string, summaryCn: string, titleEn: string, summaryEn: string)

  function Get(b: Bilingual, f: Field): string {
    match f
    case TitleCn => b.titleCn
    case SummaryCn => b.summaryCn
    case TitleEn => b.titleEn
    case SummaryEn => b.summaryEn
  }

  function Put(b: Bilingual, f: Field, v: string): (r: Bilingual)
    ensures Get(r, f) == v
    ensures forall g :: g != f ==> Get(r, g) == Get(b, g)
  {
    match f
    case TitleCn => b.(titleCn := v)
    case SummaryCn => b.(summaryCn := v)
    case TitleEn => b.(titleEn := v)
    case SummaryEn => b.(summaryEn := v)
  }

  /** One pass of the parsing loop, on a line already stripped. */
  function Step(b: Bilingual, line: string, reading: Reading): Bilingual {
    match FieldOf(line)
    case Some(f) => Put(b, f, Value(reading, line))
    case None => b
  }

  function Fold(lines: seq<string>, b: Bilingual, reading: Reading): Bilingual
    decreases |lines|
  {
    if |lines| == 0 then b else Fold(lines[1..], Step(b, lines[0], reading), reading)
  }

  /** The last line that carries field `f`: found in the lines after the
      first, or else the first line itself. */
  function LastMatch(lines: seq<string>, f: Field): (r: Option<nat>)
    ensures r.Some? ==> r.value < |lines| && Labelled(lines[r.value], f)
    ensures r.Some? ==> forall j :: r.value < j < |lines| ==> !Labelled(lines[j], f)
    ensures r.None? ==> forall j :: 0 <= j < |lines| ==> !Labelled(lines[j], f)
  {
    if |lines| == 0 then None
    else
      var t := lines[1..];
      var rest := LastMatch(t, f);
      assert forall j :: 0 < j < |lines| ==> lines[j] == t[j - 1];
      if rest.Some? then Some(rest.value + 1)
      else if Labelled(lines[0], f) then Some(0)
      else None
  }

  /** The value a field ends with: read from the last line that carries it,
      or the initial value when no line does. */
  function Final(lines: seq<string>, f: Field, initial: string, reading: Reading): string {
    match LastMatch(lines, f)
    case Some(i) => Value(reading, lines[i])
    case None => initial
  }

  /** One step of the loop sets field `f` exactly when the line carries it. */
  lemma GetStep(b: Bilingual, line: string, reading: Reading, f: Field)
    ensures Get(Step(b, line, reading), f)
         == if Labelled(line, f) then Value(reading, line) else Get(b, f)
  {
    match FieldOf(line)
    case Some(g) =>
    case None =>
  }

  /** When a later line carries `f`, the first line does not matter. */
  lemma FinalConsLater(lines: seq<string>, f: Field, initial: string, start: string, reading: Reading)
    requires |lines| > 0 && LastMatch(lines[1..], f).Some?
    ensures Final(lines, f, initial, reading) == Final(lines[1..], f, start, reading)
  {
    var t := lines[1..];
    var i := LastMatch(t, f).value;
    assert LastMatch(lines, f) == Some(i + 1);
    assert t[i] == lines[i + 1];
    FinalAt(t, f, start, reading, i);
    FinalAt(lines, f, initial, reading, i + 1);
  }

  /** The final value when the last line carrying `f` is line `i`. */
  lemma FinalAt(lines: seq<string>, f: Field, initial: string, reading: Reading, i: nat)
    requires LastMatch(lines, f) == Some(i)
    ensures i < |lines| && |lines[i]| >= 5
    ensures Final(lines, f, initial, reading) == Value(reading, lines[i])
  {
  }

  /** When no later line carries `f`, the first line decides. */
  lemma FinalConsFirst(lines: seq<string>, f: Field, initial: string, reading: Reading)
    requires |lines| > 0 && LastMatch(lines[1..], f).None?
    ensures Final(lines, f, initial, reading)
         == if Labelled(lines[0], f) then Value(reading, lines[0]) else initial
  {
  }

  /** The final value over `line` and then `rest` is the final value over
      `rest`, starting from what `line` left. */
  lemma FinalCons(lines: seq<string>, f: Field, initial: string, reading: Reading)
    requires |lines| > 0
    ensures Final(lines, f, initial, reading)
         == Final(lines[1..], f, if Labelled(lines[0], f) then Value(reading, lines[0]) else initial, reading)
  {
    var start := if Labelled(lines[0], f) then Value(reading, lines[0]) else initial;
    if LastMatch(lines[1..], f).Some? {
      FinalConsLater(lines, f, initial, start, reading);
    } else {
      FinalConsFirst(lines, f, initial, reading);
    }
  }

  /** Every field ends with the value of the last line carrying it; a field
      no line carries keeps its initial value. */
  lemma {:induction false} FoldFinal(lines: seq<string>, b: Bilingual, reading: Reading, f: Field)
    ensures Get(Fold(lines, b, reading), f) == Final(lines, f, Get(b, f), reading)
    decreases |lines|
  {
    if |lines| > 0 {
      var b' := Step(b, lines[0], reading);
      FoldFinal(lines[1..], b', reading, f);
      GetStep(b, lines[0], reading, f);
      FinalCons(lines, f, Get(b, f), reading);
    }
  }

  /** The defaults before parsing: all empty except the English title. */
  function Defaults(originalTitle: string): Bilingual {
    Bilingual("", "", originalTitle, "")
  }

  /** The reply's lines, each stripped. */
  function Lines(raw: string): seq<string> {
    StripAll(Split(Strip(raw), '\n'))
  }

  /** The parsed reply, with the English title falling back to the
      original title when it came out empty. */
  function Parse(raw: string, originalTitle: string, reading: Reading): (r: Bilingual)
    ensures originalTitle != "" ==> r.titleEn != ""
  {
    var b := Fold(Lines(raw), Defaults(originalTitle), reading);
    if b.titleEn == "" && originalTitle != "" then b.(titleEn := originalTitle) else b
  }

  /** Each field of the parsed reply is the value of the last line carrying
      it, or empty when none does; the English title defaults to, and
      falls back to, the original title. */
  lemma ParseFields(raw: string, originalTitle: string, reading: Reading)
    ensures var lines := Lines(raw);
            var r := Parse(raw, originalTitle, reading);
            && r.titleCn == Final(lines, TitleCn, "", reading)
            && r.summaryCn == Final(lines, SummaryCn, "", reading)
            && r.summaryEn == Final(lines, SummaryEn, "", reading)
            && r.titleEn == (if Final(lines, TitleEn, originalTitle, reading) == "" then originalTitle
                             else Final(lines, TitleEn, originalTitle, reading))
  {
    var lines := Lines(raw);
    var d := Defaults(originalTitle);
    FoldFinal(lines, d, reading, TitleCn);
    FoldFinal(lines, d, reading, SummaryCn);
    FoldFinal(lines, d, reading, TitleEn);
    FoldFinal(lines, d, reading, SummaryEn);
  }

  /** A value the reply format can carry: already stripped, on one line. */
  predicate Carried(v: string) {
    Strip(v) == v && '\n' !in v
  }

  function Line(f: Field, v: string): string {
    Label(f) + ":" + v
  }

  /** The reply in the format the prompt asks for. */
  function Render(b: Bilingual): string {
    Join([Line(TitleCn, b.titleCn), Line(SummaryCn, b.summaryCn),
          Line(TitleEn, b.titleEn), Line(SummaryEn, b.summaryEn)], "\n")
  }

  lemma LineShape(f: Field, v: string)
    requires Carried(v)
    ensures var l := Line(f, v);
            && Strip(l) == l && '\n' !in l && l != ""
  {
    var l := Line(f, v);
    LabelShape(f);
    var n := |l| - 1;
    assert !IsSpace(l[n]) by {
      if |v| > 0 {
        assert l[n] == v[|v| - 1];
      } else {
        assert l[n] == ':';
      }
    }
    assert !IsSpace(l[0]) by { assert l[0] == Label(f)[0]; }
    StripUnchanged(l, IsSpace);
  }

  lemma LineField(f: Field, v: string)
    ensures FieldOf(Line(f, v)) == Some(f) && |Line(f, v)| >= 5
  {
    var l := Line(f, v);
    LabelShape(f);
    assert l[..4] == Label(f);
    assert Labelled(l, f);
  }

  /** The text after a rendered line's first `:` is its value. */
  lemma LineAfterColon(f: Field, v: string)
    ensures var l := Line(f, v);
            |l| >= 5 && l[5..] == v && AfterFirst(l, ':') == v
  {
    var l := Line(f, v);
    LabelShape(f);
    assert l[5..] == v;
    assert l[4] == ':' && ':' !in l[..4];
    assert FirstIndex(l, ':') == 4;
  }

  lemma LineRead(f: Field, v: string)
    requires Carried(v)
    ensures var l := Line(f, v);
            && |l| >= 5
            && Value(Corrected, l) == v
            && Value(AsWritten, l) == Strip(AfterFirst(v, '：'))
  {
    LineAfterColon(f, v);
  }

  /** Joining stripped one-line strings with line breaks and reading the
      lines back gives the strings. */
  lemma LinesOfJoin(lines: seq<string>)
    requires |lines| > 0 && lines[0] != "" && lines[|lines| - 1] != ""
    requires forall i :: 0 <= i < |lines| ==> '\n' !in lines[i] && Strip(lines[i]) == lines[i]
    ensures Lines(Join(lines, "\n")) == lines
  {
    assert "\n" == ['\n'];
    SplitJoinStripped(lines, '\n');
    StripAllFixed(lines);
  }

  lemma FourLines(l0: string, l1: string, l2: string, l3: string)
    requires l0 != "" && Strip(l0) == l0 && '\n' !in l0
    requires l1 != "" && Strip(l1) == l1 && '\n' !in l1
    requires l2 != "" && Strip(l2) == l2 && '\n' !in l2
    requires l3 != "" && Strip(l3) == l3 && '\n' !in l3
    ensures Lines(Join([l0, l1, l2, l3], "\n")) == [l0, l1, l2, l3]
  {
    var lines := [l0, l1, l2, l3];
    assert forall i :: 0 <= i < 4 ==> lines[i] in {l0, l1, l2, l3};
    LinesOfJoin(lines);
  }

  /** Splitting a rendered reply gives its four lines back. */
  lemma RenderLines(b: Bilingual)
    requires Carried(b.titleCn) && Carried(b.summaryCn) && Carried(b.titleEn) && Carried(b.summaryEn)
    ensures Lines(Render(b)) ==
              [Line(TitleCn, b.titleCn), Line(SummaryCn, b.summaryCn),
               Line(TitleEn, b.titleEn), Line(SummaryEn, b.summaryEn)]
  {
    LineShape(TitleCn, b.titleCn);
    LineShape(SummaryCn, b.summaryCn);
    LineShape(TitleEn, b.titleEn);
    LineShape(SummaryEn, b.summaryEn);
    FourLines(Line(TitleCn, b.titleCn), Line(SummaryCn, b.summaryCn),
              Line(TitleEn, b.titleEn), Line(SummaryEn, b.summaryEn));
  }

  lemma StepLabelled(b: Bilingual, line: string, f: Field, reading: Reading)
    requires FieldOf(line) == Some(f)
    ensures Step(b, line, reading) == Put(b, f, Value(reading, line))
  {
  }

  lemma FoldCons(line: string, rest: seq<string>, b: Bilingual, reading: Reading)
    ensures Fold([line] + rest, b, reading) == Fold(rest, Step(b, line, reading), reading)
  {
    assert ([line] + rest)[1..] == rest;
  }

  lemma FoldChain(l0: string, l1: string, l2: string, l3: string, d: Bilingual, reading: Reading)
    ensures Fold([l0, l1, l2, l3], d, reading) ==
            Step(Step(Step(Step(d, l0, reading), l1, reading), l2, reading), l3, reading)
  {
    var b1 := Step(d, l0, reading);
    var b2 := Step(b1, l1, reading);
    var b3 := Step(b2, l2, reading);
    FoldCons(l0, [l1, l2, l3], d, reading);
    FoldCons(l1, [l2, l3], b1, reading);
    FoldCons(l2, [l3], b2, reading);
    FoldCons(l3, [], b3, reading);
    assert [l0] + [l1, l2, l3] == [l0, l1, l2, l3];
    assert [l1] + [l2, l3] == [l1, l2, l3];
    assert [l2] + [l3] == [l2, l3];
    assert [l3] + [] == [l3];
  }

  /** The fold over four lines carrying the four fields in order. */
  lemma FoldFour(l0: string, l1: string, l2: string, l3: string, d: Bilingual, reading: Reading)
    requires FieldOf(l0) == Some(TitleCn) && FieldOf(l1) == Some(SummaryCn)
    requires FieldOf(l2) == Some(TitleEn) && FieldOf(l3) == Some(SummaryEn)
    ensures Fold([l0, l1, l2, l3], d, reading) ==
              Bilingual(Value(reading, l0), Value(reading, l1), Value(reading, l2), Value(reading, l3))
  {
    FoldChain(l0, l1, l2, l3, d, reading);
    StepLabelled(d, l0, TitleCn, reading);
    var b1 := Put(d, TitleCn, Value(reading, l0));
    StepLabelled(b1, l1, SummaryCn, reading);
    var b2 := Put(b1, SummaryCn, Value(reading, l1));
    StepLabelled(b2, l2, TitleEn, reading);
    var b3 := Put(b2, TitleEn, Value(reading, l2));
    StepLabelled(b3, l3, SummaryEn, reading);
  }

  /** The fold over the four rendered lines. */
  lemma FoldRender(b: Bilingual, d: Bilingual, reading: Reading)
    ensures var lines := [Line(TitleCn, b.titleCn), Line(SummaryCn, b.summaryCn),
                          Line(TitleEn, b.titleEn), Line(SummaryEn, b.summaryEn)];
            Fold(lines, d, reading) ==
              Bilingual(Value(reading, lines[0]), Value(reading, lines[1]),
                        Value(reading, lines[2]), Value(reading, lines[3]))
  {
    LineField(TitleCn, b.titleCn);
    LineField(SummaryCn, b.summaryCn);
    LineField(TitleEn, b.titleEn);
    LineField(SummaryEn, b.summaryEn);
    FoldFour(Line(TitleCn, b.titleCn), Line(SummaryCn, b.summaryCn),
             Line(TitleEn, b.titleEn), Line(SummaryEn, b.summaryEn), d, reading);
  }

  /** The corrected parser reads back every field of a well-formed reply,
      the English title falling back to the original title when empty. */
  lemma ParseRender(b: Bilingual, originalTitle: string)
    requires Carried(b.titleCn) && Carried(b.summaryCn) && Carried(b.titleEn) && Carried(b.summaryEn)
    ensures Parse(Render(b), originalTitle, Corrected) ==
              if b.titleEn == "" && originalTitle != "" then b.(titleEn := originalTitle) else b
  {
    RenderLines(b);
    FoldRender(b, Defaults(originalTitle), Corrected);
    LineRead(TitleCn, b.titleCn);
    LineRead(SummaryCn, b.summaryCn);
    LineRead(TitleEn, b.titleEn);
    LineRead(SummaryEn, b.summaryEn);
  }

  /** The parser as written loses everything up to the first full-width
      colon of a value: a Chinese title of the form `A：B`, the very form
      the prompt asks for, comes back as `B`. */
  lemma AsWrittenDropsColonPrefix(b: Bilingual, originalTitle: string)
    requires Carried(b.titleCn) && Carried(b.summaryCn) && Carried(b.titleEn) && Carried(b.summaryEn)
    requires '：' in b.titleCn
    ensures Parse(Render(b), originalTitle, AsWritten).titleCn == Strip(AfterFirst(b.titleCn, '：'))
    ensures Parse(Render(b), originalTitle, AsWritten).titleCn != b.titleCn
    ensures Parse(Render(b), originalTitle, Corrected).titleCn == b.titleCn
  {
    RenderLines(b);
    FoldRender(b, Defaults(originalTitle), AsWritten);
    LineRead(TitleCn, b.titleCn);
    ParseRender(b, originalTitle);
  }

  // ---------------------------------------------------------------------
  // Re-translating a short Chinese title

  /** `cn_char_count < en_word_count * 1.2`, compared exactly as
      `5 * chars < 6 * words`. */
  function NeedsRetranslation(originalTitle: string, titleCn: string): (r: bool)
    ensures r ==> originalTitle != "" && titleCn != "" && |titleCn| < 2 * |Words(originalTitle, IsSpace)|
    ensures originalTitle != "" && 0 < |titleCn| <= |Words(originalTitle, IsSpace)| ==> r
    ensures 5 * |titleCn| >= 6 * |Words(originalTitle, IsSpace)| ==> !r
  {
    originalTitle != "" && titleCn != ""
    && 5 * |titleCn| < 6 * |Words(originalTitle, IsSpace)|
  }

  /** The trigger fires for any non-empty Chinese title with at most as
      many characters as the English title has words, never for one of at
      least 1.2 characters per word, and a shorter title triggers whenever
      a longer one does. */
  lemma RetranslationBounds(originalTitle: string, titleCn: string, shorter: string)
    ensures originalTitle != "" && 0 < |titleCn| <= |Words(originalTitle, IsSpace)| ==>
              NeedsRetranslation(originalTitle, titleCn)
    ensures 5 * |titleCn| >= 6 * |Words(originalTitle, IsSpace)| ==> !NeedsRetranslation(originalTitle, titleCn)
    ensures NeedsRetranslation(originalTitle, titleCn) && 0 < |shorter| <= |titleCn| ==>
              NeedsRetranslation(originalTitle, shorter)
  {
  }

  /** `summarize_bilingual` after the reply: parse, then replace a short
      Chinese title by the stripped reply to the translation request.
      Only the Chinese title can differ from the parsed reply; it is the
      stripped translation when the trigger fires and the parsed one
      otherwise, and the English title is never empty while there is an
      original one. */
  function SummarizeBilingual(raw: string, originalTitle: string, translation: string, reading: Reading)
    : (r: Bilingual)
    ensures var p := Parse(raw, originalTitle, reading);
            && r == p.(titleCn := r.titleCn)
            && (NeedsRetranslation(originalTitle, p.titleCn) ==> r.titleCn == Strip(translation))
            && (!NeedsRetranslation(originalTitle, p.titleCn) ==> r.titleCn == p.titleCn)
    ensures originalTitle != "" ==> r.titleEn != ""
  {
    var p := Parse(raw, originalTitle, reading);
    if NeedsRetranslation(originalTitle, p.titleCn) then p.(titleCn := Strip(translation)) else p
  }

  /** For a reply in the requested format, the corrected pipeline gives
      back the four values, the Chinese title replaced by the translation
      exactly when it is short against the original title. */
  lemma SummarizeRendered(b: Bilingual, originalTitle: string, translation: string)
    requires Carried(b.titleCn) && Carried(b.summaryCn) && Carried(b.titleEn) && Carried(b.summaryEn)
    ensures var r := SummarizeBilingual(Render(b), originalTitle, translation, Corrected);
            && r.summaryCn == b.summaryCn && r.summaryEn == b.summaryEn
            && r.titleEn == (if b.titleEn == "" && originalTitle != "" then originalTitle else b.titleEn)
            && r.titleCn == (if NeedsRetranslation(originalTitle, b.titleCn) then Strip(translation) else b.titleCn)
  {
    ParseRender(b, originalTitle);
  }

  // ---------------------------------------------------------------------
  // Suggested tags

  /** The canonical form `preset_lower[t.lower()]`: the dict keeps the last
      preset with that lower-case form. */
  function LastLower(presets: seq<string>, key: string): (r: Option<string>)
    ensures r.Some? ==> r.value in presets && Lower(r.value) == key
    ensures r.None? <==> forall i :: 0 <= i < |presets| ==> Lower(presets[i]) != key
  {
    if |presets| == 0 then None
    else if Lower(presets[|presets| - 1]) == key then Some(presets[|presets| - 1])
    else LastLower(presets[..|presets| - 1], key)
  }

  /** What one reply token contributes: itself when it is a preset,
      otherwise the preset with the same lower-case form, otherwise nothing. */
  function MatchPreset(t: string, presets: seq<string>): (r: Option<string>)
    ensures r.Some? ==> r.value in presets && Lower(r.value) == Lower(t)
    ensures t in presets ==> r == Some(t)
    ensures r.None? <==> forall i :: 0 <= i < |presets| ==> Lower(presets[i]) != Lower(t)
  {
    if t in presets then Some(t) else LastLower(presets, Lower(t))
  }

  /** The reply's tokens: full-width commas read as commas, split on
      commas, each token stripped. The one-character `replace` is
      `MapChar` (see `Strings.MapCharIsReplace`). */
  function Tokens(raw: string): (r: seq<string>)
    ensures |r| >= 1
  {
    StripAll(Split(MapChar(Strip(raw), '，', ','), ','))
  }

  function MatchAll(tokens: seq<string>, presets: seq<string>): (r: seq<string>)
    ensures forall i :: 0 <= i < |r| ==> r[i] in presets
    ensures |r| <= |tokens|
  {
    if |tokens| == 0 then []
    else
      (match MatchPreset(tokens[0], presets)
       case Some(p) => [p]
       case None => [])
      + MatchAll(tokens[1..], presets)
  }

  /** The `suggest_tags` reply parser. */
  function SuggestTags(raw: string, presets: seq<string>): (r: seq<string>)
    ensures forall i :: 0 <= i < |r| ==> r[i] in presets
  {
    MatchAll(Tokens(raw), presets)
  }

  /** Matching keeps the tokens' order: appending a token appends what it
      contributes. */
  lemma {:induction false} MatchAllAppend(a: seq<string>, b: seq<string>, presets: seq<string>)
    ensures MatchAll(a + b, presets) == MatchAll(a, presets) + MatchAll(b, presets)
    decreases |a|
  {
    if |a| == 0 {
      assert a + b == b;
    } else {
      assert (a + b)[0] == a[0];
      assert (a + b)[1..] == a[1..] + b;
      MatchAllAppend(a[1..], b, presets);
    }
  }

  /** Tokens that match no preset, even ignoring case, are dropped. */
  lemma {:induction false} MatchAllDrops(tokens: seq<string>, presets: seq<string>)
    requires forall i :: 0 <= i < |tokens| ==> MatchPreset(tokens[i], presets).None?
    ensures MatchAll(tokens, presets) == []
    decreases |tokens|
  {
    if |tokens| > 0 {
      MatchAllDrops(tokens[1..], presets);
    }
  }

  /** A token that is a preset is kept as written. */
  lemma {:induction false} MatchAllPresets(tokens: seq<string>, presets: seq<string>)
    requires forall i :: 0 <= i < |tokens| ==> tokens[i] in presets
    ensures MatchAll(tokens, presets) == tokens
    decreases |tokens|
  {
    if |tokens| > 0 {
      MatchAllPresets(tokens[1..], presets);
    }
  }

  /** A token worth replying with: non-empty, no space at either end (so
      stripping leaves it as it is), without commas. */
  predicate PlainTag(t: string) {
    t != "" && !IsSpace(t[0]) && !IsSpace(t[|t| - 1]) && ',' !in t && '，' !in t
  }

  /** Stripping each of a list of plain tags changes none of them. */
  lemma PlainTagsFixed(tags: seq<string>)
    requires forall i :: 0 <= i < |tags| ==> PlainTag(tags[i])
    ensures StripAll(tags) == tags
  {
    forall i | 0 <= i < |tags| ensures Strip(tags[i]) == tags[i] {
      StripUnchanged(tags[i], IsSpace);
    }
    StripAllFixed(tags);
  }

  /** Plain tags joined with commas are the reply's raw tokens. */
  lemma JoinedTokens(tags: seq<string>)
    requires |tags| > 0
    requires forall i :: 0 <= i < |tags| ==> PlainTag(tags[i])
    ensures Split(MapChar(Strip(Join(tags, ",")), '，', ','), ',') == tags
  {
    var raw := Join(tags, ",");
    assert PlainTag(tags[0]) && PlainTag(tags[|tags| - 1]);
    StripJoinUnchanged(tags, ",");
    assert Strip(raw) == raw;
    forall i | 0 <= i < |tags|
      ensures '，' !in tags[i] && ',' !in tags[i]
    {
      assert PlainTag(tags[i]);
    }
    JoinNoChar(tags, ",", '，');
    MapCharAbsent(raw, '，', ',');
    assert MapChar(Strip(raw), '，', ',') == raw;
    assert "," == [','];
    SplitJoin(tags, ',');
  }

  /** A reply listing preset tags separated by commas parses back to
      exactly those tags, in order. */
  lemma SuggestTagsJoin(tags: seq<string>, presets: seq<string>)
    requires |tags| > 0
    requires forall i :: 0 <= i < |tags| ==> PlainTag(tags[i]) && tags[i] in presets
    ensures SuggestTags(Join(tags, ","), presets) == tags
  {
    JoinedTokens(tags);
    PlainTagsFixed(tags);
    MatchAllPresets(tags, presets);
  }

  /** A token in a different case is replaced by the preset's own spelling,
      the last such preset when several share a lower-case form. */
  lemma CanonicalCasing(t: string, presets: seq<string>, i: nat)
    requires t !in presets
    requires i < |presets| && Lower(presets[i]) == Lower(t)
    requires forall j :: i < j < |presets| ==> Lower(presets[j]) != Lower(t)
    ensures MatchPreset(t, presets) == Some(presets[i])
  {
    LastLowerAt(presets, Lower(t), i);
  }

  lemma {:induction false} LastLowerAt(presets: seq<string>, key: string, i: nat)
    requires i < |presets| && Lower(presets[i]) == key
    requires forall j :: i < j < |presets| ==> Lower(presets[j]) != key
    ensures LastLower(presets, key) == Some(presets[i])
    decreases |presets|
  {
    if i < |presets| - 1 {
      LastLowerAt(presets[..|presets| - 1], key, i);
    }
  }
}
