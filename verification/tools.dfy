/** The news tools: fetch, stop at a fetch failure, parse, stop at a parse
    error record, keep the first `count` stories, and join their displays
    with a rule line. The fetched string and the XML parser are inputs. */
module Tools {
  import opened Text
  import opened Xml
  import opened Rss
  import opened Seqs
  import opened Fetch
  import Wsj
  import TechCrunch
  import Wired
  import HackerNews
  import AiNews

  const NO_STORIES := "No stories found."
  const SEP := "\n---\n"

  /** The displays of the kept stories, one rule line between neighbours;
      the fixed message when none is kept. */
  function Shown<S>(kept: seq<S>, format: S -> string): (r: string)
    ensures kept == [] ==> r == NO_STORIES
    ensures |kept| == 1 ==> r == format(kept[0])
    ensures |kept| > 1 ==> r == format(kept[0]) + SEP + Shown(kept[1..], format)
  {
    if kept == [] then NO_STORIES
    else
      assert Map(format, kept)[1..] == Map(format, kept[1..]);
      Join(Map(format, kept), SEP)
  }

  /** `stories[: min(count, len(stories))]`, then the display: the fixed
      message when nothing is kept, otherwise the displays of the kept
      prefix; a count reaching the number of stories shows every one. */
  function Render<S>(stories: seq<S>, count: int, format: S -> string): (r: string)
    ensures KeptCount(|stories|, count) == 0 ==> r == NO_STORIES
    ensures KeptCount(|stories|, count) > 0 ==>
              r == Join(Map(format, stories[..KeptCount(|stories|, count)]), SEP)
    ensures count >= |stories| ==> r == Shown(stories, format)
  {
    Shown(Truncate(stories, count), format)
  }

  /** Only the first `count` stories are ever shown: stories after them
      change nothing. */
  lemma RenderIgnoresTail<S>(stories: seq<S>, more: seq<S>, count: int, format: S -> string)
    requires 0 <= count <= |stories|
    ensures Render(stories + more, count, format) == Render(stories, count, format)
  {
    TruncateIgnoresTail(stories, more, count);
  }

  /** k kept stories show as k displays and k - 1 rule lines. */
  lemma RenderLength<S>(stories: seq<S>, count: int, format: S -> string)
    requires KeptCount(|stories|, count) > 0
    ensures var shown := Map(format, Truncate(stories, count));
            |Render(stories, count, format)| == TotalLength(shown) + (|shown| - 1) * |SEP|
  {
  }

  /** `get_hackernews_stories`: no parse-error check, so a failed parse is
      shown as one story display made of placeholders. */
  function GetHackernewsStories(fetched: string, xml: string -> Document, count: int): (r: string)
    ensures IsFetchError(fetched) ==> r == fetched
    ensures !IsFetchError(fetched) && xml(fetched).Parsed? ==>
              r == Shown(Map(HackerNews.StoryOf, Truncate(FindAllDescendants(xml(fetched).root, "item"), count)),
                         HackerNews.FormatStory)
    ensures !IsFetchError(fetched) && !xml(fetched).Parsed? && count < 1 ==> r == NO_STORIES
    ensures !IsFetchError(fetched) && !xml(fetched).Parsed? && count >= 1 ==>
              r == "\nTitle: " + "Unknown" + "\nLink: " + "No link" + "\nPublished: " + "Unknown" + "\n"
  {
    if IsFetchError(fetched) then fetched
    else
      var doc := xml(fetched);
      if doc.Parsed? then
        TruncateMap(HackerNews.StoryOf, FindAllDescendants(doc.root, "item"), count);
        Render(HackerNews.ParseHn(doc), count, HackerNews.FormatStory)
      else
        FailedParseShown(RSS_ERROR_PREFIX + doc.message, count);
        Render(HackerNews.ParseHn(doc), count, HackerNews.FormatStory)
  }

  /** The single error record of a failed Hacker News parse is kept for any
      positive count and shown with placeholders, its message dropped. */
  lemma FailedParseShown(m: string, count: int)
    ensures count < 1 ==> Render([HackerNews.ErrorRecord(m)], count, HackerNews.FormatStory) == NO_STORIES
    ensures count >= 1 ==> Render([HackerNews.ErrorRecord(m)], count, HackerNews.FormatStory)
                           == "\nTitle: " + "Unknown" + "\nLink: " + "No link" + "\nPublished: " + "Unknown" + "\n"
  {
    HackerNews.ErrorMessageNeverShown(m, m);
    if count >= 1 {
      assert Truncate([HackerNews.ErrorRecord(m)], count) == [HackerNews.ErrorRecord(m)];
    }
  }

  /** `get_wallstreetjournal_stories`: a parse error record is returned as
      its bare message, without the "ERROR: " of the story display. */
  function GetWsjStories(fetched: string, xml: string -> Document, count: int): (r: string)
    ensures IsFetchError(fetched) ==> r == fetched
    ensures !IsFetchError(fetched) && !xml(fetched).Parsed? ==> r == FailureMessage(xml(fetched))
    ensures !IsFetchError(fetched) && xml(fetched).Parsed? && FindChild(xml(fetched).root, "channel").None? ==>
              r == NO_CHANNEL_ERROR
    ensures !IsFetchError(fetched) && xml(fetched).Parsed? && FindChild(xml(fetched).root, "channel").Some? ==>
              r == Shown(Map(Wsj.ArticleOf, Truncate(FindAllChildren(FindChild(xml(fetched).root, "channel").value, "item"), count)),
                         Wsj.FormatArticle)
  {
    if IsFetchError(fetched) then fetched
    else
      var doc := xml(fetched);
      var stories := Wsj.ParseWsj(doc);
      if stories != [] && stories[0].ErrorRecord? then stories[0].error
      else
        if doc.Parsed? && FindChild(doc.root, "channel").Some? then
          TruncateMap(Wsj.ArticleOf, FindAllChildren(FindChild(doc.root, "channel").value, "item"), count);
          Render(stories, count, Wsj.FormatArticle)
        else
          Render(stories, count, Wsj.FormatArticle)
  }

  /** `get_techcrunch_stories`: as the Wall Street Journal tool. */
  function GetTechcrunchStories(fetched: string, xml: string -> Document, count: int): (r: string)
    ensures IsFetchError(fetched) ==> r == fetched
    ensures !IsFetchError(fetched) && !xml(fetched).Parsed? ==> r == FailureMessage(xml(fetched))
    ensures !IsFetchError(fetched) && xml(fetched).Parsed? && FindChild(xml(fetched).root, "channel").None? ==>
              r == NO_CHANNEL_ERROR
    ensures !IsFetchError(fetched) && xml(fetched).Parsed? && FindChild(xml(fetched).root, "channel").Some? ==>
              r == Shown(Map(TechCrunch.ArticleOf, Truncate(FindAllChildren(FindChild(xml(fetched).root, "channel").value, "item"), count)),
                         TechCrunch.FormatArticle)
  {
    if IsFetchError(fetched) then fetched
    else
      var doc := xml(fetched);
      var stories := TechCrunch.ParseTc(doc);
      if stories != [] && stories[0].ErrorRecord? then stories[0].error
      else
        if doc.Parsed? && FindChild(doc.root, "channel").Some? then
          TruncateMap(TechCrunch.ArticleOf, FindAllChildren(FindChild(doc.root, "channel").value, "item"), count);
          Render(stories, count, TechCrunch.FormatArticle)
        else
          Render(stories, count, TechCrunch.FormatArticle)
  }

  /** `get_wired_stories`: as the Wall Street Journal tool. */
  function GetWiredStories(fetched: string, xml: string -> Document, count: int): (r: string)
    ensures IsFetchError(fetched) ==> r == fetched
    ensures !IsFetchError(fetched) && !xml(fetched).Parsed? ==> r == FailureMessage(xml(fetched))
    ensures !IsFetchError(fetched) && xml(fetched).Parsed? && FindChild(xml(fetched).root, "channel").None? ==>
              r == NO_CHANNEL_ERROR
    ensures !IsFetchError(fetched) && xml(fetched).Parsed? && FindChild(xml(fetched).root, "channel").Some? ==>
              r == Shown(Map(Wired.ArticleOf, Truncate(FindAllChildren(FindChild(xml(fetched).root, "channel").value, "item"), count)),
                         Wired.FormatArticle)
  {
    if IsFetchError(fetched) then fetched
    else
      var doc := xml(fetched);
      var stories := Wired.ParseWired(doc);
      if stories != [] && stories[0].ErrorRecord? then stories[0].error
      else
        if doc.Parsed? && FindChild(doc.root, "channel").Some? then
          TruncateMap(Wired.ArticleOf, FindAllChildren(FindChild(doc.root, "channel").value, "item"), count);
          Render(stories, count, Wired.FormatArticle)
        else
          Render(stories, count, Wired.FormatArticle)
  }

  /** `get_ainews_latest`: only the first item of the document is shown, and
      a parse error record is returned as its bare message. */
  function GetAinewsLatest(fetched: string, xml: string -> Document, unescape: string -> string): (r: string)
    ensures IsFetchError(fetched) ==> r == fetched
    ensures !IsFetchError(fetched) && !xml(fetched).Parsed? ==> r == FailureMessage(xml(fetched))
    ensures !IsFetchError(fetched) && xml(fetched).Parsed? && FindDescendant(xml(fetched).root, "item").None? ==>
              r == NO_STORIES
    ensures !IsFetchError(fetched) && xml(fetched).Parsed? && FindDescendant(xml(fetched).root, "item").Some? ==>
              r == AiNews.FormatStory(AiNews.StoryOf(FindDescendant(xml(fetched).root, "item").value, unescape))
  {
    if IsFetchError(fetched) then fetched
    else
      var stories := AiNews.ParseAinews(xml(fetched), unescape);
      if stories != [] && stories[0].ErrorRecord? then stories[0].error
      else if stories == [] then NO_STORIES
      else AiNews.FormatStory(stories[0])
  }

  /** The `add` tool. */
  function Add(a: int, b: int): (r: int)
    ensures r - a == b && r - b == a
  {
    a + b
  }

  /** The catch-all fetch failure is returned verbatim by every tool, and
      the parser is never consulted. */
  lemma FetchFailureReturnedVerbatim(d: string, xml: string -> Document, unescape: string -> string, count: int)
    ensures var f := Fetched(OtherFailure(d));
            && GetHackernewsStories(f, xml, count) == f
            && GetWsjStories(f, xml, count) == f
            && GetTechcrunchStories(f, xml, count) == f
            && GetWiredStories(f, xml, count) == f
            && GetAinewsLatest(f, xml, unescape) == f
  {
    SentinelOf(OtherFailure(d));
  }

  /** An HTTP failure slips past the "Error" test: its string goes to the
      XML parser, so when the parser rejects it the tools report an XML
      error (Hacker News a placeholder story) instead of the HTTP error. */
  lemma HttpFailureReachesParser(d: string, xml: string -> Document, unescape: string -> string, count: int)
    requires xml(Fetched(HttpFailure(d))).ParseError?
    ensures var f := Fetched(HttpFailure(d));
            var e := XML_ERROR_PREFIX + xml(f).message;
            && GetWsjStories(f, xml, count) == e
            && GetTechcrunchStories(f, xml, count) == e
            && GetWiredStories(f, xml, count) == e
            && GetAinewsLatest(f, xml, unescape) == e
            && (count >= 1 ==> GetHackernewsStories(f, xml, count)
                               == "\nTitle: " + "Unknown" + "\nLink: " + "No link" + "\nPublished: " + "Unknown" + "\n")
  {
    SentinelOf(HttpFailure(d));
  }
}
