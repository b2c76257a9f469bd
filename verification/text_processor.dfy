/** The plain-text fallback extractor (kb/processors/text.py): the first
    line becomes the title when it is short and more lines follow;
    otherwise the title is a clipped copy of the whole text. */
module TextProcessor {
  import opened Strings
  import opened Content

  /** The longest first line that is still used as the title. */
  const MaxFirstLine: nat := 100

  /** How much of the text a generated title keeps before `...`. */
  const TitleClip: nat := 50

  /** `TextProcessor.process` */
  function TextProcess(input: string): (r: ProcessedContent)
    ensures r.contentType == Text && r.source == "text"
    ensures r.tags == [] && r.summary.None? && r.titleEn.None? && r.filePath.None?
    ensures '\n' !in r.title
    ensures |r.title| <= MaxFirstLine
  {
    var text := Strip(input);
    var lines := Split(text, '\n');
    var first := Strip(lines[0]);
    SplitFirst(text, '\n');
    if |first| <= MaxFirstLine && |lines| > 1 then
      StripWithin(lines[0]);
      Basic(Text, first, "text", Strip(Join(lines[1..], "\n")))
    else
      var title := if |text| > TitleClip then Take(text, TitleClip) + "..." else text;
      LongFirstLine(text);
      Basic(Text, title, "text", text)
  }

  /** When the first line is too long to be a title, the first 50
      characters hold no line break. */
  lemma LongFirstLine(text: string)
    requires |Split(text, '\n')| == 1 || |Strip(Split(text, '\n')[0])| > MaxFirstLine
    ensures '\n' !in Take(text, TitleClip)
  {
    var lines := Split(text, '\n');
    SplitFirst(text, '\n');
    if |lines| > 1 {
      assert |lines[0]| > TitleClip;
      assert text[..TitleClip] == lines[0][..TitleClip];
    }
  }

  /** A first line of at most 100 characters, stripped, with more lines
      after it, is the title; the other lines, joined and stripped, are
      the body. */
  lemma ShortFirstLine(input: string)
    requires var lines := Split(Strip(input), '\n');
             |lines| > 1 && |Strip(lines[0])| <= MaxFirstLine
    ensures var lines := Split(Strip(input), '\n');
            && TextProcess(input).title == Strip(lines[0])
            && TextProcess(input).content == Strip(Join(lines[1..], "\n"))
  {
  }

  /** The pieces of a split around the first separator, at `k`. */
  lemma FirstPieceAt(text: string, k: nat)
    requires k < |text| && text[k] == '\n' && '\n' !in text[..k]
    ensures var lines := Split(text, '\n');
            && |lines| > 1 && lines[0] == text[..k]
            && Join(lines[1..], "\n") == text[k + 1..]
  {
    var lines := Split(text, '\n');
    SplitFirst(text, '\n');
    assert '\n' in text by { assert text[k] == '\n'; }
    var n := |lines[0]|;
    assert n <= |text| && lines[0] == text[..n];
    assert n == k;
    assert "\n" == ['\n'];
  }

  /** When the stripped text has a line break at `k` and the line before it
      is at most 100 characters once stripped, that line is the title and
      the rest after the break, stripped, is the body. */
  lemma FirstLineTitle(input: string, k: nat)
    requires k < |Strip(input)| && Strip(input)[k] == '\n'
    requires '\n' !in Strip(input)[..k]
    requires |Strip(Strip(input)[..k])| <= MaxFirstLine
    ensures TextProcess(input).title == Strip(Strip(input)[..k])
    ensures TextProcess(input).content == Strip(Strip(input)[k + 1..])
  {
    FirstPieceAt(Strip(input), k);
    ShortFirstLine(input);
  }

  /** Text without a line break, or whose first line is too long, is kept
      whole as the body, and a title longer than 50 characters is clipped
      to 50 followed by `...`. */
  lemma WholeTextBody(input: string)
    requires '\n' !in Strip(input)
             || |Strip(Split(Strip(input), '\n')[0])| > MaxFirstLine
    ensures TextProcess(input).content == Strip(input)
    ensures |Strip(input)| <= TitleClip ==> TextProcess(input).title == Strip(input)
    ensures |Strip(input)| > TitleClip ==>
              TextProcess(input).title == Strip(input)[..TitleClip] + "..."
  {
    SplitFirst(Strip(input), '\n');
  }
}
