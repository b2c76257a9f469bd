/** The bot's own logic (kb/bot.py): who may use it, the Markdown escaping
    of the preview, the tag keyboard, and the per-chat selection state the
    inline buttons drive. Telegram itself, the extractors and the language
    model are inputs; the per-chat state is a map passed in and returned. */
module Bot {
  import opened Outcomes
  import opened Strings
  import opened Seqs
  import opened Content
  import Config
  import Link
  import Replies
  import Tagger
  import TagCalls

  // ---------------------------------------------------------------------
  // Authorisation

  /** `_is_authorized`: everybody when no admin is configured, otherwise
      only the admin. */
  function IsAuthorized(admin: Option<int>, user: int): (r: bool)
    ensures admin.None? ==> r
    ensures r <==> admin == None || admin == Some(user)
  {
    admin.None? || user == admin.value
  }

  /** When an admin is configured, anybody else is ignored: no button
      press changes a pending entry and `/mode` keeps the mode. */
  lemma StrangerIgnored(chats: Chats, chat: int, user: int, admin: int, data: string,
                        presets: seq<string>, autoPublish: bool)
    requires user != admin
    ensures HandleCallback(chats, chat, user, Some(admin), data, presets) == (chats, Ignored)
    ensures CmdMode(Some(admin), user, autoPublish) == autoPublish
  {
  }

  // ---------------------------------------------------------------------
  // Markdown escaping

  /** The characters `_escape_md` escapes, in the order it escapes them. */
  const MarkdownSpecials: seq<char> := ['_', '*', '[', ']', '`']

  /** One character, with a backslash in front when it is in `cs`. */
  function EscapeChar(c: char, cs: set<char>): (r: string)
    ensures r == [c] || r == ['\\', c]
  {
    if c in cs then ['\\', c] else [c]
  }

  /** Per-character escaping: every character of `cs` gets a backslash. */
  function EscapeSet(s: string, cs: set<char>): (r: string)
    ensures |r| >= |s|
    decreases |s|
  {
    if |s| == 0 then "" else EscapeChar(s[0], cs) + EscapeSet(s[1..], cs)
  }

  /** The loop of `_escape_md`: `text = text.replace(c, '\\' + c)` for each
      character in turn. */
  function ReplaceEach(text: string, chars: seq<char>): string
    decreases |chars|
  {
    if |chars| == 0 then text
    else ReplaceEach(ReplaceAll(text, [chars[0]], ['\\', chars[0]]), chars[1..])
  }

  /** `_escape_md` as written. */
  function EscapeMd(text: string): (r: string)
    ensures text == "" ==> r == ""
  {
    if text == "" then "" else ReplaceEach(text, MarkdownSpecials)
  }

  /** Reading escaped text back: a backslash before a character of `cs`
      is dropped. */
  function Unescape(s: string, cs: set<char>): (r: string)
    decreases |s|
  {
    if |s| == 0 then ""
    else if |s| >= 2 && s[0] == '\\' && s[1] in cs then [s[1]] + Unescape(s[2..], cs)
    else [s[0]] + Unescape(s[1..], cs)
  }

  /** Replacing a one-character pattern, one character at a time. */
  lemma ReplaceCharCons(ch: char, rest: string, c: char, rep: string)
    ensures ReplaceAll([ch] + rest, [c], rep)
         == (if ch == c then rep else [ch]) + ReplaceAll(rest, [c], rep)
  {
    var s := [ch] + rest;
    assert s[..1] == [ch];
    assert s[1..] == rest;
  }

  /** Escaping one more character `c` on top of an escaping of `done`. */
  lemma {:induction false} ReplaceOneMore(s: string, done: set<char>, c: char)
    requires c !in done && c != '\\'
    ensures ReplaceAll(EscapeSet(s, done), [c], ['\\', c]) == EscapeSet(s, done + {c})
    decreases |s|
  {
    if |s| == 0 {
      assert ReplaceAll("", [c], ['\\', c]) == "";
    } else {
      ReplaceOneMore(s[1..], done, c);
      ReplaceHead(s[0], EscapeSet(s[1..], done), done, c);
    }
  }

  /** The first character of an escaping of `done`, seen by replacing `c`. */
  lemma ReplaceHead(ch: char, rest: string, done: set<char>, c: char)
    requires c !in done && c != '\\'
    ensures ReplaceAll(EscapeChar(ch, done) + rest, [c], ['\\', c])
         == EscapeChar(ch, done + {c}) + ReplaceAll(rest, [c], ['\\', c])
  {
    if ch in done {
      assert EscapeChar(ch, done) + rest == ['\\'] + ([ch] + rest);
      ReplaceEscaped(ch, rest, c);
    } else {
      assert EscapeChar(ch, done) + rest == [ch] + rest;
      ReplaceCharCons(ch, rest, c, ['\\', c]);
    }
  }

  /** An already escaped character other than `c` passes through replacing `c`. */
  lemma ReplaceEscaped(ch: char, rest: string, c: char)
    requires ch != c && c != '\\'
    ensures ReplaceAll(['\\'] + ([ch] + rest), [c], ['\\', c]) == ['\\', ch] + ReplaceAll(rest, [c], ['\\', c])
  {
    ReplaceCharCons(ch, rest, c, ['\\', c]);
    ReplaceCharCons('\\', [ch] + rest, c, ['\\', c]);
  }

  /** Escaping with no characters changes nothing. */
  lemma {:induction false} EscapeNone(s: string)
    ensures EscapeSet(s, {}) == s
    decreases |s|
  {
    if |s| > 0 {
      EscapeNone(s[1..]);
      assert s == [s[0]] + s[1..];
    }
  }

  /** The replacement loop escapes exactly the characters it visits. */
  lemma {:induction false} ReplaceEachEscapes(s: string, done: set<char>, chars: seq<char>)
    requires NoDup(chars) && '\\' !in chars
    requires forall i :: 0 <= i < |chars| ==> chars[i] !in done
    ensures ReplaceEach(EscapeSet(s, done), chars) == EscapeSet(s, done + Elems(chars))
    decreases |chars|
  {
    if |chars| > 0 {
      var c := chars[0];
      ReplaceOneMore(s, done, c);
      assert NoDup(chars[1..]) by {
        forall i, j | 0 <= i < j < |chars[1..]| ensures chars[1..][i] != chars[1..][j] {
          assert chars[1..][i] == chars[i + 1] && chars[1..][j] == chars[j + 1];
        }
      }
      forall i | 0 <= i < |chars[1..]| ensures chars[1..][i] !in done + {c} {
        assert chars[1..][i] == chars[i + 1];
      }
      ReplaceEachEscapes(s, done + {c}, chars[1..]);
      assert Elems(chars) == {c} + Elems(chars[1..]) by {
        assert chars == [c] + chars[1..];
        forall x | x in Elems(chars) ensures x in {c} + Elems(chars[1..]) {
          var i :| 0 <= i < |chars| && chars[i] == x;
          if i > 0 { assert chars[1..][i - 1] == x; }
        }
        forall x | x in Elems(chars[1..]) ensures x in Elems(chars) {
          var i :| 0 <= i < |chars[1..]| && chars[1..][i] == x;
          assert chars[i + 1] == x;
        }
      }
      assert done + {c} + Elems(chars[1..]) == done + Elems(chars);
    } else {
      assert Elems(chars) == {};
      assert done + Elems(chars) == done;
    }
  }

  /** `_escape_md` puts a backslash in front of each of `_ * [ ] \``, one
      character at a time, and leaves every other character alone. */
  lemma EscapeMdPerCharacter(text: string)
    ensures EscapeMd(text) == EscapeSet(text, Elems(MarkdownSpecials))
  {
    if text != "" {
      EscapeNone(text);
      assert {} + Elems(MarkdownSpecials) == Elems(MarkdownSpecials);
      ReplaceEachEscapes(text, {}, MarkdownSpecials);
    }
  }

  /** Reading the escaped text back gives the original, for any set of
      escaped characters that does not hold the backslash. */
  lemma {:induction false} UnescapeEscape(s: string, cs: set<char>)
    requires '\\' !in cs
    ensures Unescape(EscapeSet(s, cs), cs) == s
    decreases |s|
  {
    if |s| > 0 {
      var rest := EscapeSet(s[1..], cs);
      UnescapeEscape(s[1..], cs);
      var e := EscapeSet(s, cs);
      if s[0] in cs {
        assert e == ['\\', s[0]] + rest;
        assert e[2..] == rest;
      } else {
        assert e == [s[0]] + rest;
        assert e[1..] == rest;
        if s[0] == '\\' && |rest| > 0 {
          assert rest[0] !in cs by {
            assert rest[..|EscapeChar(s[1], cs)|] == EscapeChar(s[1], cs);
          }
        }
      }
      assert s == [s[0]] + s[1..];
    }
  }

  /** The escaped preview text of `_escape_md` reads back as the text. */
  lemma EscapeMdRoundTrip(text: string)
    ensures Unescape(EscapeMd(text), Elems(MarkdownSpecials)) == text
  {
    EscapeMdPerCharacter(text);
    assert '\\' !in Elems(MarkdownSpecials);
    UnescapeEscape(text, Elems(MarkdownSpecials));
  }

  // ---------------------------------------------------------------------
  // Pending selections

  /** `PendingContent` */
  datatype Pending = Pending(
    content: ProcessedContent,
    suggested: seq<string>,
    extra: seq<string>,
    selected: set<string>,
    messageId: Option<int>)

  /** The pending entry per chat. */
  type Chats = map<int, Pending>

  /** What `handle_message` hands to the dispatcher, given the stripped
      message and the URL finder's raw matches in it: nothing when no URL
      is found, the URL alone when there is exactly one, the whole message
      when there are several. */
  function MessageInput(text: string, matches: seq<string>): (r: Option<string>)
    ensures r.None? <==> |matches| == 0
    ensures r.Some? ==> r.value == text || r.value in Link.ExtractUrls(matches)
  {
    var urls := Link.ExtractUrls(matches);
    if |urls| == 0 then None
    else if |urls| == 1 then Some(urls[0])
    else Some(text)
  }

  /** One URL, however often it occurs and whatever trailing punctuation
      each occurrence carries, is fetched on its own; two different URLs
      make the whole message the input. */
  lemma MessageInputUrls(text: string, u: string, v: string)
    ensures MessageInput(text, [u, u + "."]) == Some(Link.TrimUrl(u))
    ensures Link.TrimUrl(u) != Link.TrimUrl(v) ==> MessageInput(text, [u, v]) == Some(text)
  {
    Link.TrimUrlDot(u);
    var t := Link.TrimUrl(u);
    var r := Link.ExtractUrls([u, u + "."]);
    assert Link.TrimAll([u, u + "."]) == [t, t];
    assert forall i :: 0 <= i < |r| ==> r[i] == t;
    assert [u, u + "."][0] == u;
    assert t in r;
    if Link.TrimUrl(u) != Link.TrimUrl(v) {
      var r2 := Link.ExtractUrls([u, v]);
      assert [u, v][0] == u && [u, v][1] == v;
      assert Link.TrimUrl(u) in r2 && Link.TrimUrl(v) in r2;
      assert |r2| > 1;
    }
  }

  /** A new pending entry, with every suggested and extra tag selected. */
  function NewPending(c: ProcessedContent, suggested: seq<string>, extra: seq<string>): (p: Pending)
    ensures p.content == c && p.suggested == suggested && p.extra == extra && p.messageId.None?
    ensures forall t :: t in p.selected <==> t in suggested || t in extra
  {
    Pending(c, suggested, extra, (set t | t in suggested + extra), None)
  }

  /** The end of `handle_message`: publish at once with every suggested and
      extra tag, or park the record for tag selection. Either way no other
      chat's entry is touched. */
  function Start(chats: Chats, chat: int, c: ProcessedContent, suggested: seq<string>, extra: seq<string>,
                 autoPublish: bool): (r: (Chats, Option<ProcessedContent>))
    ensures autoPublish <==> r.1.Some?
    ensures autoPublish ==> r.0 == chats && r.1.value.tags == suggested + extra && r.1.value.(tags := c.tags) == c
    ensures !autoPublish ==>
              && chat in r.0 && r.0[chat].content == c && r.0[chat].messageId.None?
              && r.0[chat].suggested == suggested && r.0[chat].extra == extra
              && (forall t :: t in r.0[chat].selected <==> t in suggested || t in extra)
    ensures forall k :: k != chat ==> (k in r.0 <==> k in chats) && (k in chats ==> r.0[k] == chats[k])
  {
    if autoPublish then (chats, Some(c.(tags := suggested + extra)))
    else (chats[chat := NewPending(c, suggested, extra)], None)
  }

  /** The summary step of `handle_message`: `None` when there is no model,
      no body, or the call raised. */
  function ApplySummary(c: ProcessedContent, b: Option<Replies.Bilingual>): (r: ProcessedContent)
    ensures b.None? ==> r == c
    ensures b.Some? ==> r.titleEn == Some(if b.value.titleEn != "" then b.value.titleEn else c.title)
    ensures b.Some? ==> r.title == (if b.value.titleCn != "" then b.value.titleCn else c.title)
    ensures b.Some? ==> r.summary == Some(b.value.summaryCn) && r.summaryEn == Some(b.value.summaryEn)
    ensures r == c.(title := r.title, summary := r.summary, titleEn := r.titleEn, summaryEn := r.summaryEn)
  {
    match b
    case None => c
    case Some(v) =>
      c.(title := if v.titleCn != "" then v.titleCn else c.title,
         summary := Some(v.summaryCn),
         titleEn := Some(if v.titleEn != "" then v.titleEn else c.title),
         summaryEn := Some(v.summaryEn))
  }

  /** The number of extra tags the bot asks for. */
  const ExtraCount: nat := 5

  /** The tag step of `handle_message`: suggestions and extras from the
      body, and from the title when the body gave no suggestion. */
  function GatherTags(model: Option<TagCalls.Model>, cfg: Config.TagConfig, c: ProcessedContent)
    : (r: (seq<string>, seq<string>))
    ensures model.None? ==> r == ([], [])
    ensures forall i :: 0 <= i < |r.0| ==> r.0[i] in cfg.presets
    ensures |r.1| <= ExtraCount
    ensures forall i :: 0 <= i < |r.1| ==> Tagger.ExtraOk(r.1[i], cfg.presets)
    ensures model.Some? && (c.content == "" || TagCalls.SuggestTags(model, cfg, c.content) == [])
            ==> r == TagCalls.GenerateTitleTags(model, cfg, c.title, c.source)
    ensures model.Some? && c.content != "" && TagCalls.SuggestTags(model, cfg, c.content) != []
            ==> r == (TagCalls.SuggestTags(model, cfg, c.content),
                      TagCalls.GenerateExtraTags(model, cfg, c.content, ExtraCount))
  {
    var fromBody :=
      if model.Some? && c.content != "" then
        (TagCalls.SuggestTags(model, cfg, c.content), TagCalls.GenerateExtraTags(model, cfg, c.content, ExtraCount))
      else ([], []);
    if model.Some? && |fromBody.0| == 0 then TagCalls.GenerateTitleTags(model, cfg, c.title, c.source)
    else fromBody
  }

  // ---------------------------------------------------------------------
  // The tag keyboard

  const MaxTagButtons: nat := 12
  const ButtonsPerRow: nat := 3
  const SelectedMark: string := "✓ "

  /** The loop `for x in xs: if x not in acc: acc.append(x)`. */
  function AppendMissing(acc: seq<string>, xs: seq<string>): (r: seq<string>)
    ensures acc <= r
    ensures forall i :: 0 <= i < |xs| ==> xs[i] in r
    ensures forall i :: |acc| <= i < |r| ==> r[i] in xs && r[i] !in acc
    ensures forall i, j :: |acc| <= i < j < |r| ==> r[i] != r[j]
    decreases |xs|
  {
    if |xs| == 0 then acc
    else if xs[0] in acc then AppendMissing(acc, xs[1..])
    else
      var r := AppendMissing(acc + [xs[0]], xs[1..]);
      assert r[|acc|] == xs[0];
      r
  }

  /** The tags offered as buttons, before the cut at twelve: suggested tags
      that are presets, then the extras, then the other presets. */
  function ButtonTags(p: Pending, presets: seq<string>): (r: seq<string>)
    ensures Tagger.Filter(p.suggested, presets, true) + p.extra <= r
    ensures forall i :: 0 <= i < |presets| ==> presets[i] in r
  {
    AppendMissing(Tagger.Filter(p.suggested, presets, true) + p.extra, presets)
  }

  datatype Button = Button(text: string, data: string)

  /** A tag's button: marked when the tag is selected; pressing it sends
      `tag:` and the tag. */
  function TagButton(tag: string, selected: set<string>): (b: Button)
    ensures b.data == "tag:" + tag
    ensures tag in selected <==> b.text == SelectedMark + tag
    ensures tag !in selected ==> b.text == tag
  {
    Button(if tag in selected then SelectedMark + tag else tag, "tag:" + tag)
  }

  function TagButtons(tags: seq<string>, selected: set<string>): (r: seq<Button>)
    ensures |r| == |tags| && forall i :: 0 <= i < |tags| ==> r[i] == TagButton(tags[i], selected)
  {
    if |tags| == 0 then [] else [TagButton(tags[0], selected)] + TagButtons(tags[1..], selected)
  }

  /** The row-building loop: buttons in rows of three, the last row
      holding the rest. */
  function Rows(bs: seq<Button>): (r: seq<seq<Button>>)
    ensures forall i :: 0 <= i < |r| ==> 0 < |r[i]| <= ButtonsPerRow
    ensures forall i :: 0 <= i < |r| - 1 ==> |r[i]| == ButtonsPerRow
    decreases |bs|
  {
    if |bs| == 0 then []
    else if |bs| <= ButtonsPerRow then [bs]
    else [bs[..ButtonsPerRow]] + Rows(bs[ButtonsPerRow..])
  }

  function Flatten(rows: seq<seq<Button>>): seq<Button> {
    if |rows| == 0 then [] else rows[0] + Flatten(rows[1..])
  }

  /** Reading the rows left to right, top to bottom, gives back the buttons,
      and there are as few rows as rows of three allow. */
  lemma {:induction false} RowsFlatten(bs: seq<Button>)
    ensures Flatten(Rows(bs)) == bs
    ensures |Rows(bs)| == (|bs| + ButtonsPerRow - 1) / ButtonsPerRow
    decreases |bs|
  {
    if |bs| > ButtonsPerRow {
      RowsFlatten(bs[ButtonsPerRow..]);
      assert bs == bs[..ButtonsPerRow] + bs[ButtonsPerRow..];
    } else if |bs| > 0 {
      assert Flatten([bs]) == bs + Flatten([]);
    }
  }

  function PublishLabel(selectedCount: nat): string {
    "📤 发布 (" + NatToString(selectedCount) + ")"
  }

  /** The two fixed rows under the tag buttons. */
  function ActionRows(selectedCount: nat): seq<seq<Button>> {
    [[Button("🔄 清空", "clear"), Button("✅ 全选", "select_all")],
     [Button(PublishLabel(selectedCount), "publish"), Button("❌ 取消", "cancel")]]
  }

  /** `_create_tag_keyboard` */
  function Keyboard(p: Pending, presets: seq<string>): (rows: seq<seq<Button>>)
    ensures |rows| >= 2 && rows[|rows| - 2..] == ActionRows(|p.selected|)
    ensures forall i :: 0 <= i < |rows| - 2 ==> 0 < |rows[i]| <= ButtonsPerRow
  {
    Rows(TagButtons(Tagger.Prefix(ButtonTags(p, presets), MaxTagButtons), p.selected)) + ActionRows(|p.selected|)
  }

  /** The tag rows of the keyboard hold, in order, the buttons of the first
      twelve offered tags, and nothing else. */
  lemma KeyboardTagButtons(p: Pending, presets: seq<string>)
    ensures var rows := Keyboard(p, presets);
            var tags := Tagger.Prefix(ButtonTags(p, presets), MaxTagButtons);
            && Flatten(rows[..|rows| - 2]) == TagButtons(tags, p.selected)
            && |tags| <= MaxTagButtons
            && |rows| - 2 <= MaxTagButtons / ButtonsPerRow
  {
    var tags := Tagger.Prefix(ButtonTags(p, presets), MaxTagButtons);
    var bs := TagButtons(tags, p.selected);
    var rows := Keyboard(p, presets);
    assert rows[..|rows| - 2] == Rows(bs);
    RowsFlatten(bs);
  }

  /** The offered tags: the suggested presets and the extras first, in
      their order, then every preset not already offered, each once. */
  lemma ButtonTagsOrder(p: Pending, presets: seq<string>)
    ensures var head := Tagger.Filter(p.suggested, presets, true) + p.extra;
            var r := ButtonTags(p, presets);
            && r[..|head|] == head
            && (forall i :: 0 <= i < |presets| ==> presets[i] in r)
            && (forall i :: |head| <= i < |r| ==> r[i] in presets && r[i] !in head)
            && (forall i, j :: |head| <= i < j < |r| ==> r[i] != r[j])
  {
  }

  /** A new pending entry shows every suggested and extra tag that gets a
      button as selected. */
  lemma NewPendingMarked(c: ProcessedContent, suggested: seq<string>, extra: seq<string>, presets: seq<string>, i: nat)
    requires var tags := Tagger.Prefix(ButtonTags(NewPending(c, suggested, extra), presets), MaxTagButtons);
             i < |tags| && (tags[i] in suggested || tags[i] in extra)
    ensures var p := NewPending(c, suggested, extra);
            var tags := Tagger.Prefix(ButtonTags(p, presets), MaxTagButtons);
            TagButtons(tags, p.selected)[i].text == SelectedMark + tags[i]
  {
  }

  // ---------------------------------------------------------------------
  // Button presses

  /** What the bot shows or does after a button press. */
  datatype Outcome =
    | Ignored                                              // not authorised, or unknown data
    | Expired                                              // no pending entry for the chat
    | Redrawn(keyboard: seq<seq<Button>>)
    | Publishing(content: ProcessedContent, tags: set<string>)
    | Cancelled

  function Toggle(s: set<string>, t: string): (r: set<string>)
    ensures t in r <==> t !in s
    ensures forall u :: u != t ==> (u in r <==> u in s)
  {
    if t in s then s - {t} else s + {t}
  }

  /** The tags `select_all` selects: the suggested and extra tags, then the
      first twelve presets not among them, cut at twelve. */
  function SelectAll(p: Pending, presets: seq<string>): (r: set<string>)
    ensures |r| <= MaxTagButtons
    ensures forall t :: t in r ==> t in p.suggested || t in p.extra || t in presets
    ensures forall t :: t in Tagger.Prefix(p.suggested + p.extra, MaxTagButtons) ==> t in r
  {
    var all := AppendMissing(p.suggested + p.extra, Tagger.Prefix(presets, MaxTagButtons));
    var chosen := Tagger.Prefix(all, MaxTagButtons);
    ElemsSize(chosen);
    forall t | t in Elems(chosen) ensures t in p.suggested || t in p.extra || t in presets {
      var i :| 0 <= i < |chosen| && chosen[i] == t;
      if i >= |p.suggested + p.extra| {
        assert t in Tagger.Prefix(presets, MaxTagButtons);
      } else {
        assert t == (p.suggested + p.extra)[i];
      }
    }
    forall t | t in Tagger.Prefix(p.suggested + p.extra, MaxTagButtons) ensures t in Elems(chosen) {
      var head := Tagger.Prefix(p.suggested + p.extra, MaxTagButtons);
      var i :| 0 <= i < |head| && head[i] == t;
      assert chosen[i] == all[i] == t;
    }
    Elems(chosen)
  }

  /** The pending entry after a press, and the redrawn keyboard: its tag
      buttons are the first twelve offered tags, in order, each marked
      exactly when selected, above the two action rows. */
  function Redraw(chats: Chats, chat: int, p: Pending, presets: seq<string>): (r: (Chats, Outcome))
    ensures r.0 == chats[chat := p]
    ensures r.1.Redrawn? && r.1.keyboard == Keyboard(p, presets)
    ensures var kb := r.1.keyboard;
            var tags := Tagger.Prefix(ButtonTags(p, presets), MaxTagButtons);
            var flat := Flatten(kb[..|kb| - 2]);
            && kb[|kb| - 2..] == ActionRows(|p.selected|)
            && |flat| == |tags| <= MaxTagButtons
            && forall i :: 0 <= i < |tags| ==>
                 flat[i].data == "tag:" + tags[i] && (flat[i].text == SelectedMark + tags[i] <==> tags[i] in p.selected)
  {
    KeyboardTagButtons(p, presets);
    (chats[chat := p], Redrawn(Keyboard(p, presets)))
  }

  /** `handle_callback` */
  function HandleCallback(chats: Chats, chat: int, user: int, admin: Option<int>, data: string, presets: seq<string>)
    : (r: (Chats, Outcome))
    ensures !IsAuthorized(admin, user) ==> r == (chats, Ignored)
    ensures IsAuthorized(admin, user) && chat !in chats ==> r == (chats, Expired)
    ensures r.0 == chats || chat in chats
    ensures forall c :: c != chat ==> (c in r.0 <==> c in chats)
    ensures forall c :: c != chat && c in chats ==> r.0[c] == chats[c]
  {
    if !IsAuthorized(admin, user) then (chats, Ignored)
    else if chat !in chats then (chats, Expired)
    else
      var p := chats[chat];
      if StartsWith(data, "tag:") then
        Redraw(chats, chat, p.(selected := Toggle(p.selected, data[4..])), presets)
      else if data == "clear" then
        Redraw(chats, chat, p.(selected := {}), presets)
      else if data == "select_all" then
        Redraw(chats, chat, p.(selected := SelectAll(p, presets)), presets)
      else if data == "publish" then
        (chats - {chat}, Publishing(p.content, p.selected))
      else if data == "cancel" then
        (chats - {chat}, Cancelled)
      else (chats, Ignored)
  }

  /** Data that does not start with `t` is not a tag button's. */
  lemma NotTagData(data: string)
    requires |data| > 0 && data[0] != 't'
    ensures !StartsWith(data, "tag:")
  {
  }

  /** Pressing a tag's button twice leaves the selection as it was. */
  lemma ToggleTwice(chats: Chats, chat: int, user: int, admin: Option<int>, tag: string, presets: seq<string>)
    requires IsAuthorized(admin, user) && chat in chats
    ensures var once := HandleCallback(chats, chat, user, admin, TagButton(tag, chats[chat].selected).data, presets).0;
            var twice := HandleCallback(once, chat, user, admin, TagButton(tag, once[chat].selected).data, presets).0;
            twice == chats
            && (tag in once[chat].selected <==> tag !in chats[chat].selected)
  {
    var p := chats[chat];
    TagPress(chats, chat, user, admin, tag, presets);
    var once := chats[chat := p.(selected := Toggle(p.selected, tag))];
    TagPress(once, chat, user, admin, tag, presets);
    ToggleInvolution(p.selected, tag);
    assert once[chat := p] == chats;
  }

  /** Pressing a tag's button toggles that tag and nothing else. */
  lemma TagPress(chats: Chats, chat: int, user: int, admin: Option<int>, tag: string, presets: seq<string>)
    requires IsAuthorized(admin, user) && chat in chats
    ensures HandleCallback(chats, chat, user, admin, "tag:" + tag, presets).0
         == chats[chat := chats[chat].(selected := Toggle(chats[chat].selected, tag))]
  {
    var data := "tag:" + tag;
    assert StartsWith(data, "tag:") && data[4..] == tag;
  }

  /** Toggling a tag twice restores the selection. */
  lemma ToggleInvolution(s: set<string>, t: string)
    ensures Toggle(Toggle(s, t), t) == s
  {
  }

  /** `clear` empties the selection; `select_all` selects at most twelve
      tags, all of them offered, and among them the first twelve of the
      suggestions and extras. */
  lemma ClearAndSelectAll(chats: Chats, chat: int, user: int, admin: Option<int>, presets: seq<string>)
    requires IsAuthorized(admin, user) && chat in chats
    ensures HandleCallback(chats, chat, user, admin, "clear", presets).0[chat].selected == {}
    ensures var p := HandleCallback(chats, chat, user, admin, "select_all", presets).0[chat];
            && |p.selected| <= MaxTagButtons
            && (forall t :: t in p.selected ==> t in p.suggested || t in p.extra || t in presets)
            && forall t :: t in Tagger.Prefix(p.suggested + p.extra, MaxTagButtons) ==> t in p.selected
  {
    NotTagData("clear");
    NotTagData("select_all");
  }

  /** `publish` and `cancel` end the chat's pending entry and touch no
      other; `publish` hands on the record and the selected tags. */
  lemma PublishAndCancelRemove(chats: Chats, chat: int, user: int, admin: Option<int>, presets: seq<string>)
    requires IsAuthorized(admin, user) && chat in chats
    ensures HandleCallback(chats, chat, user, admin, "publish", presets)
         == (chats - {chat}, Publishing(chats[chat].content, chats[chat].selected))
    ensures HandleCallback(chats, chat, user, admin, "cancel", presets) == (chats - {chat}, Cancelled)
  {
    NotTagData("publish");
    NotTagData("cancel");
  }

  /** `/mode`: an authorised user flips between publishing at once and
      previewing first; anybody else leaves the mode as it was. */
  function CmdMode(admin: Option<int>, user: int, autoPublish: bool): (r: bool)
    ensures r != autoPublish <==> IsAuthorized(admin, user)
  {
    if IsAuthorized(admin, user) then !autoPublish else autoPublish
  }

  /** `/cancel`: the chat's pending entry is dropped, and the reply says
      whether there was one. No authorisation check is made. */
  function CmdCancel(chats: Chats, chat: int): (r: (Chats, bool))
    ensures r.0 == chats - {chat}
    ensures r.1 <==> chat in chats
    ensures chat !in r.0
  {
    if chat in chats then (chats - {chat}, true) else (chats, false)
  }
}
