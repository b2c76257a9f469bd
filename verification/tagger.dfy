/** The tag system (kb/tagger.py): reading tags typed by the user, sorting
    them into preset and new tags, growing the preset vocabulary, and
    reading the model's tag suggestions. The vocabulary is a value passed
    in and returned; the language model is an input. */
module Tagger {
  import opened Outcomes
  import opened Strings
  import opened Seqs
  import Config

  /** The separators of `re.split(r'[,\s]+', ...)`. */
  predicate UserSep(c: char) {
    c == ',' || IsSpace(c)
  }

  /** The separators of `re.split(r'[,，\s]+', ...)`. */
  predicate TagSep(c: char) {
    c == ',' || c == '，' || IsSpace(c)
  }

  predicate IsHash(c: char) {
    c == '#'
  }

  // ---------------------------------------------------------------------
  // parse_user_input

  /** One token of user input: stripped, then one leading `#` dropped. */
  function UserToken(w: string): string {
    DropHash(Strip(w))
  }

  function KeepUserTokens(ws: seq<string>): (r: seq<string>)
    requires forall i :: 0 <= i < |ws| ==> IsWord(ws[i], UserSep)
    ensures forall i :: 0 <= i < |r| ==> IsWord(r[i], UserSep)
    ensures |r| <= |ws|
  {
    if |ws| == 0 then []
    else
      var t := UserToken(ws[0]);
      WordToken(ws[0]);
      (if t != "" then [t] else []) + KeepUserTokens(ws[1..])
  }

  /** A word has nothing to strip, and dropping a `#` keeps it a word
      unless nothing is left. */
  lemma WordToken(w: string)
    requires IsWord(w, UserSep)
    ensures Strip(w) == w
    ensures UserToken(w) != "" ==> IsWord(UserToken(w), UserSep)
  {
    StripUnchanged(w, IsSpace);
  }

  /** `parse_user_input`: never an empty tag, never a separator inside one. */
  function ParseUserInput(input: string): (r: seq<string>)
    ensures forall i :: 0 <= i < |r| ==> IsWord(r[i], UserSep)
  {
    KeepUserTokens(Words(input, UserSep))
  }

  function DropHashes(ws: seq<string>): (r: seq<string>)
    ensures |r| == |ws| && forall i :: 0 <= i < |ws| ==> r[i] == DropHash(ws[i])
  {
    if |ws| == 0 then [] else [DropHash(ws[0])] + DropHashes(ws[1..])
  }

  lemma {:induction false} KeepUserTokensAll(ws: seq<string>)
    requires forall i :: 0 <= i < |ws| ==> IsWord(ws[i], UserSep) && DropHash(ws[i]) != ""
    ensures KeepUserTokens(ws) == DropHashes(ws)
    decreases |ws|
  {
    if |ws| > 0 {
      WordToken(ws[0]);
      KeepUserTokensAll(ws[1..]);
    }
  }

  /** Tags typed with spaces between them come back one by one, each with
      at most one leading `#` removed. */
  lemma ParseUserInputJoin(ws: seq<string>)
    requires forall i :: 0 <= i < |ws| ==> IsWord(ws[i], UserSep) && DropHash(ws[i]) != ""
    ensures ParseUserInput(Join(ws, " ")) == DropHashes(ws)
  {
    assert " " == [' '];
    WordsJoin(ws, ' ', UserSep);
    KeepUserTokensAll(ws);
  }

  // ---------------------------------------------------------------------
  // validate_tags

  /** One input as `validate_tags` reads it: blank inputs are skipped,
      others are stripped and lose one leading `#`. */
  function CleanInput(tag: string): Option<string> {
    var t := Strip(tag);
    if t == "" then None else Some(DropHash(t))
  }

  function Part(o: Option<string>): seq<string> {
    match o
    case Some(t) => [t]
    case None => []
  }

  /** The non-blank inputs, cleaned, in order. */
  function Cleaned(tags: seq<string>): seq<string>
    decreases |tags|
  {
    if |tags| == 0 then [] else Part(CleanInput(tags[0])) + Cleaned(tags[1..])
  }

  /** The entries that are (`inside`) or are not presets, in order. */
  function Filter(xs: seq<string>, presets: seq<string>, inside: bool): (r: seq<string>)
    ensures forall i :: 0 <= i < |r| ==> (r[i] in presets) == inside
    decreases |xs|
  {
    if |xs| == 0 then []
    else (if (xs[0] in presets) == inside then [xs[0]] else []) + Filter(xs[1..], presets, inside)
  }

  /** `validate_tags`: the loop appending to `valid_tags` or `new_tags`. */
  function ValidateTags(tags: seq<string>, presets: seq<string>): (r: (seq<string>, seq<string>))
    ensures forall i :: 0 <= i < |r.0| ==> r.0[i] in presets
    ensures forall i :: 0 <= i < |r.1| ==> r.1[i] !in presets
    decreases |tags|
  {
    if |tags| == 0 then ([], [])
    else
      var (v, n) := ValidateTags(tags[..|tags| - 1], presets);
      match CleanInput(tags[|tags| - 1])
      case None => (v, n)
      case Some(t) => if t in presets then (v + [t], n) else (v, n + [t])
  }

  lemma {:induction false} CleanedAppend(tags: seq<string>, x: string)
    ensures Cleaned(tags + [x]) == Cleaned(tags) + Part(CleanInput(x))
    decreases |tags|
  {
    if |tags| == 0 {
      assert tags + [x] == [x];
      assert Cleaned([x]) == Part(CleanInput(x)) + Cleaned([]);
    } else {
      assert (tags + [x])[0] == tags[0];
      assert (tags + [x])[1..] == tags[1..] + [x];
      CleanedAppend(tags[1..], x);
    }
  }

  lemma {:induction false} FilterAppend(xs: seq<string>, ys: seq<string>, presets: seq<string>, inside: bool)
    ensures Filter(xs + ys, presets, inside) == Filter(xs, presets, inside) + Filter(ys, presets, inside)
    decreases |xs|
  {
    if |xs| == 0 {
      assert xs + ys == ys;
    } else {
      assert (xs + ys)[0] == xs[0];
      assert (xs + ys)[1..] == xs[1..] + ys;
      FilterAppend(xs[1..], ys, presets, inside);
    }
  }

  /** `validate_tags` splits the cleaned non-blank inputs, keeping their
      order, into the presets and the rest. */
  lemma {:induction false} ValidatePartition(tags: seq<string>, presets: seq<string>)
    ensures ValidateTags(tags, presets).0 == Filter(Cleaned(tags), presets, true)
    ensures ValidateTags(tags, presets).1 == Filter(Cleaned(tags), presets, false)
    decreases |tags|
  {
    if |tags| > 0 {
      var init := tags[..|tags| - 1];
      var x := tags[|tags| - 1];
      assert tags == init + [x];
      ValidatePartition(init, presets);
      CleanedAppend(init, x);
      FilterAppend(Cleaned(init), Part(CleanInput(x)), presets, true);
      FilterAppend(Cleaned(init), Part(CleanInput(x)), presets, false);
    }
  }

  /** Every cleaned input lands in exactly one of the two lists. */
  lemma {:induction false} FilterSplits(xs: seq<string>, presets: seq<string>)
    ensures multiset(Filter(xs, presets, true)) + multiset(Filter(xs, presets, false)) == multiset(xs)
    decreases |xs|
  {
    if |xs| > 0 {
      FilterSplits(xs[1..], presets);
      assert xs == [xs[0]] + xs[1..];
    }
  }

  // ---------------------------------------------------------------------
  // add_new_tag and process_tags

  /** `add_new_tag`: whether the tag was added, and the configuration after. */
  function AddNewTag(cfg: Config.TagConfig, tag: string): (r: (bool, Config.TagConfig))
    ensures r.1.allowNew == cfg.allowNew
    ensures !r.0 ==> r.1 == cfg
    ensures r.0 <==> cfg.allowNew && DropHash(Strip(tag)) !in cfg.presets
    ensures r.0 ==> r.1.presets == cfg.presets + [DropHash(Strip(tag))]
  {
    if !cfg.allowNew then (false, cfg)
    else
      var t := DropHash(Strip(tag));
      if t in cfg.presets then (false, cfg)
      else (true, cfg.(presets := Config.AddPresetTag(cfg.presets, t)))
  }

  /** Adding a tag keeps the vocabulary free of repeats and a second
      attempt with the same tag changes nothing. */
  lemma AddNewTagOnce(cfg: Config.TagConfig, tag: string)
    ensures NoDup(cfg.presets) ==> NoDup(AddNewTag(cfg, tag).1.presets)
    ensures AddNewTag(AddNewTag(cfg, tag).1, tag) == (false, AddNewTag(cfg, tag).1)
    ensures cfg.allowNew ==> DropHash(Strip(tag)) in AddNewTag(cfg, tag).1.presets
  {
  }

  /** How a new tag is written to the vocabulary. */
  datatype Persist =
    | AsWritten   // through `add_new_tag`, which strips and drops a `#` again
    | Corrected   // the validated tag itself

  function Persisted(cfg: Config.TagConfig, tag: string, persist: Persist): (r: Config.TagConfig)
    ensures r.allowNew == cfg.allowNew
    ensures cfg.presets <= r.presets && |r.presets| <= |cfg.presets| + 1
    ensures NoDup(cfg.presets) ==> NoDup(r.presets)
  {
    match persist
    case AsWritten => AddNewTag(cfg, tag).1
    case Corrected => if cfg.allowNew then cfg.(presets := Config.AddPresetTag(cfg.presets, tag)) else cfg
  }

  function PersistAll(cfg: Config.TagConfig, tags: seq<string>, persist: Persist): (r: Config.TagConfig)
    ensures r.allowNew == cfg.allowNew
    ensures cfg.presets <= r.presets
    ensures NoDup(cfg.presets) ==> NoDup(r.presets)
    ensures !cfg.allowNew ==> r == cfg
    decreases |tags|
  {
    if |tags| == 0 then cfg else PersistAll(Persisted(cfg, tags[0], persist), tags[1..], persist)
  }

  /** `process_tags`: the preset tags then the new ones, each new tag
      written to the vocabulary when new tags are allowed. */
  function ProcessTags(cfg: Config.TagConfig, userTags: seq<string>, persist: Persist)
    : (r: (seq<string>, Config.TagConfig))
    ensures r.0 == ValidateTags(userTags, cfg.presets).0 + ValidateTags(userTags, cfg.presets).1
    ensures cfg.presets <= r.1.presets && r.1.allowNew == cfg.allowNew
    ensures !cfg.allowNew ==> r.1 == cfg
  {
    var (valid, added) := ValidateTags(userTags, cfg.presets);
    (valid + added, PersistAll(cfg, added, persist))
  }

  lemma {:induction false} PersistAllContains(cfg: Config.TagConfig, tags: seq<string>)
    requires cfg.allowNew
    ensures forall t :: t in tags || t in cfg.presets ==> t in PersistAll(cfg, tags, Corrected).presets
    decreases |tags|
  {
    if |tags| > 0 {
      var c := Persisted(cfg, tags[0], Corrected);
      PersistAllContains(c, tags[1..]);
    }
  }

  /** With new tags allowed, every tag `process_tags` returns is in the
      vocabulary afterwards. */
  lemma ProcessTagsClosed(cfg: Config.TagConfig, userTags: seq<string>)
    requires cfg.allowNew
    ensures var r := ProcessTags(cfg, userTags, Corrected);
            forall i :: 0 <= i < |r.0| ==> r.0[i] in r.1.presets
  {
    var (valid, added) := ValidateTags(userTags, cfg.presets);
    PersistAllContains(cfg, added);
  }

  /** Nothing is left outside a vocabulary that holds every entry. */
  lemma {:induction false} FilterNoneOutside(xs: seq<string>, presets: seq<string>)
    requires forall i :: 0 <= i < |xs| ==> xs[i] in presets
    ensures Filter(xs, presets, false) == []
    decreases |xs|
  {
    if |xs| > 0 {
      FilterNoneOutside(xs[1..], presets);
    }
  }

  /** Processing the same input a second time adds nothing more. */
  lemma ProcessTagsTwice(cfg: Config.TagConfig, userTags: seq<string>)
    ensures var after := ProcessTags(cfg, userTags, Corrected).1;
            ProcessTags(after, userTags, Corrected).1 == after
  {
    if cfg.allowNew {
      var after := ProcessTags(cfg, userTags, Corrected).1;
      CleanedIn(cfg, userTags);
      ValidatePartition(userTags, after.presets);
      FilterNoneOutside(Cleaned(userTags), after.presets);
    }
  }

  /** After processing with new tags allowed, every cleaned input is in the
      vocabulary. */
  lemma CleanedIn(cfg: Config.TagConfig, userTags: seq<string>)
    requires cfg.allowNew
    ensures var after := ProcessTags(cfg, userTags, Corrected).1;
            forall i :: 0 <= i < |Cleaned(userTags)| ==> Cleaned(userTags)[i] in after.presets
  {
    var xs := Cleaned(userTags);
    var (valid, added) := ValidateTags(userTags, cfg.presets);
    ValidatePartition(userTags, cfg.presets);
    PersistAllContains(cfg, added);
    forall i | 0 <= i < |xs| ensures xs[i] in ProcessTags(cfg, userTags, Corrected).1.presets {
      FilterKeeps(xs, cfg.presets, i);
    }
  }

  /** Each entry of a list is kept by one of the two filters. */
  lemma {:induction false} FilterKeeps(xs: seq<string>, presets: seq<string>, i: nat)
    requires i < |xs|
    ensures xs[i] in Filter(xs, presets, xs[i] in presets)
    decreases |xs|
  {
    if i > 0 {
      FilterKeeps(xs[1..], presets, i - 1);
    }
  }

  /** Text behind leading `#`s that ends in no space is left alone by
      stripping. */
  lemma HashedStripped(pre: string, w: string)
    requires pre != "" && pre[0] == '#'
    requires w != "" && !IsSpace(w[|w| - 1])
    ensures Strip(pre + w) == pre + w
  {
    var s := pre + w;
    assert s[0] == '#' && s[|s| - 1] == w[|w| - 1];
    StripUnchanged(s, IsSpace);
  }

  /** `##w` is cleaned to `#w`, which is cleaned to `w`. */
  lemma DoubleHash(w: string)
    requires w != "" && !IsSpace(w[|w| - 1])
    ensures CleanInput("##" + w) == Some("#" + w)
    ensures DropHash(Strip("#" + w)) == w
  {
    HashedStripped("##", w);
    assert ("##" + w)[1..] == "#" + w;
    HashedStripped("#", w);
    assert ("#" + w)[1..] == w;
  }

  /** One input that cleans to a tag outside the vocabulary. */
  lemma ValidateOne(x: string, t: string, presets: seq<string>)
    requires CleanInput(x) == Some(t) && t !in presets
    ensures ValidateTags([x], presets) == ([], [t])
  {
    assert [x][..0] == [];
    assert ValidateTags([], presets) == ([], []);
    assert [] + [t] == [t];
  }

  /** The source passes the validated tag to `add_new_tag`, which strips
      and drops a `#` once more: `##w` is returned as `#w` while `w` is
      what the vocabulary gains, so a returned tag can be missing from it. */
  lemma ProcessTagsAsWrittenLoses(cfg: Config.TagConfig, w: string)
    requires cfg.allowNew && w != "" && !IsSpace(w[|w| - 1])
    requires "#" + w !in cfg.presets
    ensures var r := ProcessTags(cfg, ["##" + w], AsWritten);
            r.0 == ["#" + w] && "#" + w !in r.1.presets
    ensures var r := ProcessTags(cfg, ["##" + w], Corrected);
            r.0 == ["#" + w] && "#" + w in r.1.presets
  {
    var t := "#" + w;
    DoubleHash(w);
    ValidateOne("##" + w, t, cfg.presets);
    assert [t][1..] == [];
    assert |t| != |w|;
    assert PersistAll(cfg, [t], AsWritten) == AddNewTag(cfg, t).1;
    assert PersistAll(cfg, [t], Corrected) == Persisted(cfg, t, Corrected);
  }

  // ---------------------------------------------------------------------
  // The model's tag replies

  /** The longest generated tag that is kept. */
  const MaxTagLen: nat := 30

  /** How many extra tags the title parser keeps. */
  const MaxTitleExtras: nat := 5

  /** `t.strip().strip('#')` */
  function HashTrim(t: string): string {
    StripBy(Strip(t), IsHash)
  }

  /** Every token trimmed, in order. */
  function HashTrimAll(ts: seq<string>): (r: seq<string>)
    ensures |r| == |ts| && forall i :: 0 <= i < |ts| ==> r[i] == HashTrim(ts[i])
  {
    if |ts| == 0 then [] else [HashTrim(ts[0])] + HashTrimAll(ts[1..])
  }

  /** The trimmed tokens of a tag list the model wrote. */
  function Tokens(s: string): seq<string> {
    HashTrimAll(Words(s, TagSep))
  }

  /** A generated tag that may join the extras. */
  predicate ExtraOk(t: string, presets: seq<string>) {
    t != "" && |t| <= MaxTagLen && t !in presets
  }

  /** The trimmed tokens that may join the extras, in order. */
  function Extras(tokens: seq<string>, presets: seq<string>): (r: seq<string>)
    ensures forall i :: 0 <= i < |r| ==> ExtraOk(r[i], presets)
    ensures forall i :: 0 <= i < |tokens| && ExtraOk(tokens[i], presets) ==> tokens[i] in r
    ensures |r| <= |tokens|
  {
    if |tokens| == 0 then []
    else (if ExtraOk(tokens[0], presets) then [tokens[0]] else []) + Extras(tokens[1..], presets)
  }

  /** The trimmed tokens that name a preset, in order. */
  function PresetsIn(tokens: seq<string>, presets: seq<string>): (r: seq<string>)
    ensures forall i :: 0 <= i < |r| ==> r[i] in presets && r[i] != ""
    ensures forall i :: 0 <= i < |tokens| && tokens[i] != "" && tokens[i] in presets ==> tokens[i] in r
    ensures |r| <= |tokens|
  {
    if |tokens| == 0 then []
    else (if tokens[0] != "" && tokens[0] in presets then [tokens[0]] else []) + PresetsIn(tokens[1..], presets)
  }

  function Prefix(xs: seq<string>, n: nat): (r: seq<string>)
    ensures |r| <= n && r <= xs
    ensures |xs| <= n ==> r == xs
    ensures n <= |xs| ==> |r| == n
  {
    if |xs| <= n then xs else xs[..n]
  }

  /** The reply parsing of `generate_extra_tags`. */
  function ParseExtraTags(raw: string, presets: seq<string>, count: nat): (r: seq<string>)
    ensures |r| <= count
    ensures forall i :: 0 <= i < |r| ==> ExtraOk(r[i], presets)
  {
    Prefix(Extras(Tokens(Strip(raw)), presets), count)
  }

  /** A tag the model can list: a word with no `#` at either end. */
  predicate Listed(t: string) {
    IsWord(t, TagSep) && !IsHash(t[0]) && !IsHash(t[|t| - 1])
  }

  lemma ListedTrim(t: string)
    requires Listed(t)
    ensures HashTrim(t) == t
  {
    StripUnchanged(t, IsSpace);
    StripUnchanged(t, IsHash);
  }

  /** Listed tags are their own trimmed tokens. */
  lemma ListedTokens(ts: seq<string>)
    requires forall i :: 0 <= i < |ts| ==> Listed(ts[i])
    ensures HashTrimAll(ts) == ts
  {
    forall i | 0 <= i < |ts| ensures HashTrimAll(ts)[i] == ts[i] {
      ListedTrim(ts[i]);
    }
  }

  lemma {:induction false} ExtrasAll(ts: seq<string>, presets: seq<string>)
    requires forall i :: 0 <= i < |ts| ==> ExtraOk(ts[i], presets)
    ensures Extras(ts, presets) == ts
    decreases |ts|
  {
    if |ts| > 0 {
      ExtrasAll(ts[1..], presets);
      assert ts == [ts[0]] + ts[1..];
    }
  }

  lemma {:induction false} PresetsInAll(ts: seq<string>, presets: seq<string>)
    requires forall i :: 0 <= i < |ts| ==> ts[i] != "" && ts[i] in presets
    ensures PresetsIn(ts, presets) == ts
    decreases |ts|
  {
    if |ts| > 0 {
      PresetsInAll(ts[1..], presets);
      assert ts == [ts[0]] + ts[1..];
    }
  }

  /** Listed tags, comma-joined, are read back as themselves. */
  lemma TokensJoin(ts: seq<string>)
    requires |ts| > 0 && forall i :: 0 <= i < |ts| ==> Listed(ts[i])
    ensures Tokens(Join(ts, ",")) == ts
  {
    assert "," == [','];
    WordsJoin(ts, ',', TagSep);
    ListedTokens(ts);
  }

  /** A comma-separated reply of acceptable tags reads back as those tags
      when there are at most `count` of them, and as the first `count`
      otherwise. */
  lemma ParseExtraTagsJoin(ts: seq<string>, presets: seq<string>, count: nat)
    requires |ts| > 0
    requires forall i :: 0 <= i < |ts| ==> Listed(ts[i]) && ExtraOk(ts[i], presets)
    ensures ParseExtraTags(Join(ts, ","), presets, count) == Prefix(ts, count)
  {
    assert "," == [','];
    StripJoinedWords(ts, ',', TagSep);
    TokensJoin(ts);
    ExtrasAll(ts, presets);
  }

  /** A join of words has no space at either end. */
  lemma StripJoinedWords(ts: seq<string>, c: char, sep: char -> bool)
    requires |ts| > 0
    requires forall i :: 0 <= i < |ts| ==> IsWord(ts[i], sep)
    requires forall x :: IsSpace(x) ==> sep(x)
    ensures Strip(Join(ts, [c])) == Join(ts, [c])
  {
    var raw := Join(ts, [c]);
    var first := ts[0];
    var last := ts[|ts| - 1];
    assert IsWord(first, sep) && IsWord(last, sep);
    assert !IsSpace(first[0]) && !IsSpace(last[|last| - 1]);
    JoinEndsWith(ts, [c]);
    JoinStartsWith(ts, [c]);
    assert raw[|raw| - 1] == last[|last| - 1];
    assert raw[0] == first[0];
    StripUnchanged(raw, IsSpace);
  }

  /** The heads of the two reply lines, with either colon. */
  const PresetHead: string := "预设:"
  const PresetHeadWide: string := "预设："
  const ExtraHead: string := "额外:"
  const ExtraHeadWide: string := "额外："

  predicate PresetLine(line: string) {
    StartsWith(line, PresetHead) || StartsWith(line, PresetHeadWide)
  }

  predicate ExtraLine(line: string) {
    StartsWith(line, ExtraHead) || StartsWith(line, ExtraHeadWide)
  }

  /** The tag list of a line: after its first `:` when there is one, else
      after its first `：`. */
  function TagsPart(line: string): (r: string)
    ensures |r| <= |line| && EndsWith(line, r)
  {
    if ':' in line then AfterFirst(line, ':') else AfterFirst(line, '：')
  }

  /** One pass of the title-reply loop, on a stripped line. */
  function TitleStep(acc: (seq<string>, seq<string>), line: string, presets: seq<string>)
    : (r: (seq<string>, seq<string>))
    ensures acc.0 <= r.0 && acc.1 <= r.1
    ensures !PresetLine(line) && !ExtraLine(line) ==> r == acc
  {
    var tokens := Tokens(TagsPart(line));
    if PresetLine(line) then (acc.0 + PresetsIn(tokens, presets), acc.1)
    else if ExtraLine(line) then (acc.0, acc.1 + Extras(tokens, presets))
    else acc
  }

  function TitleFold(lines: seq<string>, presets: seq<string>): (r: (seq<string>, seq<string>))
    ensures forall i :: 0 <= i < |r.0| ==> r.0[i] in presets
    ensures forall i :: 0 <= i < |r.1| ==> ExtraOk(r.1[i], presets)
    decreases |lines|
  {
    if |lines| == 0 then ([], [])
    else TitleStep(TitleFold(lines[..|lines| - 1], presets), lines[|lines| - 1], presets)
  }

  /** The reply parsing of `generate_tags_from_title`: the preset tags, and
      at most five extras. */
  function ParseTitleTags(raw: string, presets: seq<string>): (r: (seq<string>, seq<string>))
    ensures forall i :: 0 <= i < |r.0| ==> r.0[i] in presets
    ensures |r.1| <= MaxTitleExtras
    ensures forall i :: 0 <= i < |r.1| ==> ExtraOk(r.1[i], presets)
  {
    var (p, e) := TitleFold(StripAll(Split(Strip(raw), '\n')), presets);
    (p, Prefix(e, MaxTitleExtras))
  }

  /** The two lines of a title reply in the requested format. */
  function TitleReply(ps: seq<string>, es: seq<string>): string {
    Join([PresetHead + Join(ps, ","), ExtraHead + Join(es, ",")], "\n")
  }

  /** After a three-character head whose only `:` is its last character,
      the tag list is the rest of the line. */
  lemma HeadTagsPart(head: string, j: string)
    requires |head| == 3 && head[2] == ':' && head[0] != ':' && head[1] != ':'
    ensures TagsPart(head + j) == j
  {
    var line := head + j;
    var i := FirstIndex(line, ':');
    assert i >= 2 by {
      assert line[0] == head[0] && line[1] == head[1];
    }
    assert line[3..] == j;
  }

  /** A head with no space in front of stripped text leaves nothing to strip. */
  lemma HeadStripped(head: string, j: string)
    requires |head| > 0 && !IsSpace(head[0]) && j != "" && Strip(j) == j
    ensures Strip(head + j) == head + j
  {
    var line := head + j;
    assert !IsSpace(j[|j| - 1]);
    assert line[|line| - 1] == j[|j| - 1];
    StripUnchanged(line, IsSpace);
  }

  /** Listed tags joined by commas: one stripped, non-empty line. */
  lemma ListedJoin(ts: seq<string>)
    requires |ts| > 0 && forall i :: 0 <= i < |ts| ==> Listed(ts[i])
    ensures Join(ts, ",") != "" && Strip(Join(ts, ",")) == Join(ts, ",")
    ensures '\n' !in Join(ts, ",")
  {
    assert "," == [','];
    StripJoinedWords(ts, ',', TagSep);
    JoinStartsWith(ts, ",");
    forall i | 0 <= i < |ts| ensures '\n' !in ts[i] {
      assert IsWord(ts[i], TagSep);
    }
    JoinNoChar(ts, ",", '\n');
  }

  /** A three-character head ending in `:` followed by listed tags: the
      line is stripped, one line, and its tag list is the tags. */
  lemma HeadLine(head: string, ts: seq<string>)
    requires |head| == 3 && head[2] == ':' && head[0] != ':' && head[1] != ':'
    requires !IsSpace(head[0]) && '\n' !in head
    requires |ts| > 0 && forall i :: 0 <= i < |ts| ==> Listed(ts[i])
    ensures var line := head + Join(ts, ",");
            && Strip(line) == line && '\n' !in line && line != ""
            && Tokens(TagsPart(line)) == ts
  {
    var j := Join(ts, ",");
    ListedJoin(ts);
    HeadStripped(head, j);
    HeadTagsPart(head, j);
    TokensJoin(ts);
  }

  /** Which head a line of the reply format starts with. */
  lemma HeadsOf(j0: string, j1: string)
    ensures PresetLine(PresetHead + j0)
    ensures ExtraLine(ExtraHead + j1) && !PresetLine(ExtraHead + j1)
  {
    var l0 := PresetHead + j0;
    var l1 := ExtraHead + j1;
    assert l0[..3] == PresetHead;
    assert l1[..3] == ExtraHead;
    assert l1[0] != PresetHead[0] && l1[0] != PresetHeadWide[0];
  }

  /** A preset line adds to the preset tags. */
  lemma TitleStepPreset(acc: (seq<string>, seq<string>), line: string, presets: seq<string>)
    requires PresetLine(line)
    ensures TitleStep(acc, line, presets) == (acc.0 + PresetsIn(Tokens(TagsPart(line)), presets), acc.1)
  {
  }

  /** An extras line that is not a preset line adds to the extras. */
  lemma TitleStepExtra(acc: (seq<string>, seq<string>), line: string, presets: seq<string>)
    requires !PresetLine(line) && ExtraLine(line)
    ensures TitleStep(acc, line, presets) == (acc.0, acc.1 + Extras(Tokens(TagsPart(line)), presets))
  {
  }

  /** The fold over one more line is one more step. */
  lemma TitleFoldSnoc(lines: seq<string>, line: string, presets: seq<string>)
    ensures TitleFold(lines + [line], presets) == TitleStep(TitleFold(lines, presets), line, presets)
  {
    assert (lines + [line])[..|lines|] == lines;
  }

  /** The fold over a preset line and then an extras line. */
  lemma TitleFoldTwo(l0: string, l1: string, presets: seq<string>)
    requires PresetLine(l0) && !PresetLine(l1) && ExtraLine(l1)
    ensures TitleFold([l0, l1], presets)
         == (PresetsIn(Tokens(TagsPart(l0)), presets), Extras(Tokens(TagsPart(l1)), presets))
  {
    var p := PresetsIn(Tokens(TagsPart(l0)), presets);
    var e := Extras(Tokens(TagsPart(l1)), presets);
    var empty: seq<string> := [];
    TitleFoldSnoc(empty, l0, presets);
    assert empty + [l0] == [l0];
    TitleStepPreset(([], []), l0, presets);
    assert [] + p == p;
    TitleFoldSnoc([l0], l1, presets);
    assert [l0] + [l1] == [l0, l1];
    TitleStepExtra((p, []), l1, presets);
    assert [] + e == e;
  }

  /** Two stripped lines joined by a newline are read back as those lines. */
  lemma TwoLines(l0: string, l1: string)
    requires l0 != "" && Strip(l0) == l0 && '\n' !in l0
    requires l1 != "" && Strip(l1) == l1 && '\n' !in l1
    ensures StripAll(Split(Strip(Join([l0, l1], "\n")), '\n')) == [l0, l1]
  {
    assert "\n" == ['\n'];
    SplitJoinStripped([l0, l1], '\n');
    StripAllFixed([l0, l1]);
  }

  /** Two lines, a preset line then an extras line, each a head and its
      listed tags. */
  lemma ParseTwoLines(h0: string, h1: string, ps: seq<string>, es: seq<string>, presets: seq<string>)
    requires |h0| == 3 && h0[2] == ':' && h0[0] != ':' && h0[1] != ':' && !IsSpace(h0[0]) && '\n' !in h0
    requires |h1| == 3 && h1[2] == ':' && h1[0] != ':' && h1[1] != ':' && !IsSpace(h1[0]) && '\n' !in h1
    requires PresetLine(h0 + Join(ps, ","))
    requires ExtraLine(h1 + Join(es, ",")) && !PresetLine(h1 + Join(es, ","))
    requires |ps| > 0 && forall i :: 0 <= i < |ps| ==> Listed(ps[i]) && ps[i] in presets
    requires |es| > 0 && forall i :: 0 <= i < |es| ==> Listed(es[i]) && ExtraOk(es[i], presets)
    ensures var raw := Join([h0 + Join(ps, ","), h1 + Join(es, ",")], "\n");
            ParseTitleTags(raw, presets) == (ps, Prefix(es, MaxTitleExtras))
  {
    var l0 := h0 + Join(ps, ",");
    var l1 := h1 + Join(es, ",");
    HeadLine(h0, ps);
    HeadLine(h1, es);
    TwoLines(l0, l1);
    TitleFoldTwo(l0, l1, presets);
    PresetsInAll(ps, presets);
    ExtrasAll(es, presets);
  }

  /** A reply in the requested two-line format reads back as its preset
      tags and its first five extras. */
  lemma ParseTitleTagsReply(ps: seq<string>, es: seq<string>, presets: seq<string>)
    requires |ps| > 0 && forall i :: 0 <= i < |ps| ==> Listed(ps[i]) && ps[i] in presets
    requires |es| > 0 && forall i :: 0 <= i < |es| ==> Listed(es[i]) && ExtraOk(es[i], presets)
    ensures ParseTitleTags(TitleReply(ps, es), presets) == (ps, Prefix(es, MaxTitleExtras))
  {
    HeadsOf(Join(ps, ","), Join(es, ","));
    ParseTwoLines(PresetHead, ExtraHead, ps, es, presets);
  }
}
