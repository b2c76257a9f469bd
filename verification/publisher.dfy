/** Publishing to the channel (kb/publisher.py): which Telegram call a
    record goes out by, and the link to the message that results. The
    Telegram API is an input that returns the id of the sent message. */
module Publisher {
  import opened Outcomes
  import opened Strings
  import opened Content

  /** The prefix Telegram puts in front of a supergroup or channel id. */
  const ChannelIdPrefix: string := "-100"

  /** The id part of a private channel's link: the configured id with one
      leading `-100` removed. */
  function PrivateId(channel: string): (r: string)
    ensures StartsWith(channel, ChannelIdPrefix) ==> channel == ChannelIdPrefix + r
    ensures !StartsWith(channel, ChannelIdPrefix) ==> r == channel
    ensures |r| <= |channel|
  {
    if StartsWith(channel, ChannelIdPrefix) then channel[|ChannelIdPrefix|..] else channel
  }

  /** `_get_message_url` */
  function MessageUrl(channel: string, messageId: int): (r: string)
    ensures StartsWith(r, "https://t.me/")
    ensures EndsWith(r, "/" + IntToString(messageId))
  {
    var tail := "/" + IntToString(messageId);
    if StartsWith(channel, "@") then
      var r := "https://t.me/" + channel[1..] + tail;
      assert r[|r| - |tail|..] == tail;
      r
    else
      var r := "https://t.me/c/" + PrivateId(channel) + tail;
      assert r[|r| - |tail|..] == tail;
      r
  }

  /** A message id written out never holds a `/`. */
  lemma NoSlashInId(m: int)
    ensures '/' !in IntToString(m)
  {
    var s := IntToString(m);
    forall i | 0 <= i < |s| ensures s[i] != '/' {
      if m < 0 {
        if i > 0 {
          assert s[i] == NatToString(-m)[i - 1];
        }
      }
    }
  }

  /** Splitting `a/rest` at `/` when `a` holds no `/`. */
  lemma SplitSlash(a: string, rest: string)
    requires '/' !in a
    ensures Split(a + "/" + rest, '/') == [a] + Split(rest, '/')
  {
    assert a + "/" + rest == a + ['/'] + rest;
    SplitConcat(a, rest, '/');
  }

  /** The last two pieces of a link: the channel part and the message id. */
  lemma SplitTail(name: string, messageId: int)
    requires '/' !in name
    ensures Split(name + "/" + IntToString(messageId), '/') == [name, IntToString(messageId)]
  {
    NoSlashInId(messageId);
    SplitSlash(name, IntToString(messageId));
    SplitNoSep(IntToString(messageId), '/');
  }

  /** `https://t.me/` is `https:`, an empty piece and `t.me`, each followed
      by a `/`. */
  lemma HostPieces()
    ensures "https://t.me/" == "https:" + "/" + ("" + "/" + ("t.me" + "/"))
  {
  }

  /** The pieces of `https://t.me/` followed by `rest`. */
  lemma SplitHost(rest: string)
    ensures Split("https://t.me/" + rest, '/') == ["https:", "", "t.me"] + Split(rest, '/')
  {
    var t := "t.me" + "/" + rest;
    var e := "" + "/" + t;
    HostPieces();
    assert "https://t.me/" + rest == "https:" + "/" + e;
    SplitSlash("t.me", rest);
    SplitSlash("", t);
    SplitSlash("https:", e);
  }

  /** A name without `/` after a `@` has no `/` either. */
  lemma NoSlashAfterAt(channel: string)
    requires |channel| > 0 && '/' !in channel
    ensures '/' !in channel[1..]
  {
    forall i | 0 <= i < |channel| - 1 ensures channel[1..][i] != '/' {
      assert channel[1..][i] == channel[i + 1];
    }
  }

  /** A public channel's link, split at `/`, gives back the channel's name
      and the message id. */
  lemma PublicUrlParts(channel: string, messageId: int)
    requires StartsWith(channel, "@") && '/' !in channel
    ensures Split(MessageUrl(channel, messageId), '/')
         == ["https:", "", "t.me", channel[1..], IntToString(messageId)]
  {
    var tail := channel[1..] + "/" + IntToString(messageId);
    assert MessageUrl(channel, messageId) == "https://t.me/" + tail;
    NoSlashAfterAt(channel);
    SplitHost(tail);
    SplitTail(channel[1..], messageId);
  }

  /** A private channel's link is the host, `c`, the id and the message id. */
  lemma PrivateUrlShape(channel: string, messageId: int)
    requires !StartsWith(channel, "@")
    ensures MessageUrl(channel, messageId)
         == "https://t.me/" + ("c" + "/" + (PrivateId(channel) + "/" + IntToString(messageId)))
  {
  }

  /** Removing `-100` from an id without `/` leaves none. */
  lemma NoSlashInPrivateId(channel: string)
    requires '/' !in channel
    ensures '/' !in PrivateId(channel)
  {
    var id := PrivateId(channel);
    if id != channel {
      forall i | 0 <= i < |id| ensures id[i] != '/' {
        assert id[i] == channel[i + 4];
      }
    }
  }

  /** A private channel's link, split at `/`, gives back the id without its
      `-100` and the message id. */
  lemma PrivateUrlParts(channel: string, messageId: int)
    requires !StartsWith(channel, "@") && '/' !in channel
    ensures Split(MessageUrl(channel, messageId), '/')
         == ["https:", "", "t.me", "c", PrivateId(channel), IntToString(messageId)]
  {
    var id := PrivateId(channel);
    var tail := id + "/" + IntToString(messageId);
    PrivateUrlShape(channel, messageId);
    NoSlashInPrivateId(channel);
    SplitTail(id, messageId);
    SplitSlash("c", tail);
    SplitHost("c" + "/" + tail);
  }

  /** The link's last piece reads back as the message id. */
  lemma MessageIdReadsBack(channel: string, messageId: nat)
    requires '/' !in channel
    ensures var parts := Split(MessageUrl(channel, messageId), '/');
            parts[|parts| - 1] == NatToString(messageId)
            && DigitsValue(NatToString(messageId)) == messageId
  {
    if StartsWith(channel, "@") {
      PublicUrlParts(channel, messageId);
    } else {
      PrivateUrlParts(channel, messageId);
    }
    NatToStringValue(messageId);
  }

  /** The full `-100…` id and the short id name the same channel. */
  lemma FullAndShortIdAgree(id: string, messageId: int)
    requires !StartsWith(id, "@") && !StartsWith(id, ChannelIdPrefix)
    ensures MessageUrl(ChannelIdPrefix + id, messageId) == MessageUrl(id, messageId)
  {
    var full := ChannelIdPrefix + id;
    assert full[..4] == ChannelIdPrefix;
    assert full[4..] == id;
    assert full[0] == '-';
    assert !StartsWith(full, "@");
    assert PrivateId(full) == id;
  }

  /** The Telegram call a record goes out by. */
  datatype Delivery =
    | SendPhoto(path: string, caption: string)
    | SendDocument(path: string, caption: string)
    | SendMessage(text: string)
  {
    /** The Markdown text sent, as caption or as message. */
    function Body(): string {
      match this
      case SendPhoto(_, caption) => caption
      case SendDocument(_, caption) => caption
      case SendMessage(text) => text
    }
  }

  /** The branch of `publish`. */
  function DeliveryOf(c: ProcessedContent): (d: Delivery)
    ensures d.Body() == FormatForTelegram(c)
    ensures d.SendPhoto? <==> c.contentType == Image && c.filePath.Some?
    ensures d.SendDocument? <==> c.contentType == Pdf && c.filePath.Some?
    ensures d.SendMessage? <==> c.filePath.None? || c.contentType !in {Image, Pdf}
    ensures !d.SendMessage? ==> d.path == c.filePath.value
  {
    var text := FormatForTelegram(c);
    // A `Path` is always truthy, so a present file path is enough.
    if c.contentType == Image && c.filePath.Some? then SendPhoto(c.filePath.value, text)
    else if c.contentType == Pdf && c.filePath.Some? then SendDocument(c.filePath.value, text)
    else SendMessage(text)
  }

  /** `publish`: the call made, and the link to the message, given the id
      Telegram assigns to the sent message. */
  function Publish(c: ProcessedContent, channel: string, telegram: Delivery -> int): (r: (Delivery, string))
    ensures r.0.Body() == FormatForTelegram(c)
    ensures r.0.SendMessage? <==> c.filePath.None? || c.contentType !in {Image, Pdf}
    ensures !r.0.SendMessage? ==> r.0.path == c.filePath.value
    ensures StartsWith(r.1, "https://t.me/")
    ensures EndsWith(r.1, "/" + IntToString(telegram(r.0)))
  {
    var d := DeliveryOf(c);
    (d, MessageUrl(channel, telegram(d)))
  }

  /** Records that are neither images nor PDFs, or have no file, go out as
      text whatever else they carry. */
  lemma OnlyFilesAsMedia(c: ProcessedContent, path: string)
    requires c.contentType !in {Image, Pdf}
    ensures DeliveryOf(c.(filePath := Some(path))) == SendMessage(FormatForTelegram(c.(filePath := Some(path))))
    ensures DeliveryOf(c.(filePath := None)).SendMessage?
  {
  }
}
