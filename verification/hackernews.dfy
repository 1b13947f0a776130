/** The Hacker News reader: every `item` anywhere in the document, no
    `channel` needed, and a display of title, link and date only. */
module HackerNews {
  import opened Text
  import opened TextLines
  import opened Xml
  import opened Rss
  import opened Seqs
  import opened Display

  /** A story as `parse_hn_rss` records it; a present but empty element
      leaves its field `None`. */
  datatype Story =
    | Story(title: Option<string>, link: Option<string>, description: Option<string>, pubDate: Option<string>)
    | ErrorRecord(error: string)

  function StoryOf(item: Element): (r: Story)
    ensures r.Story?
    ensures FindChild(item, "title").None? ==> r.title == Some("No title")
    ensures FindChild(item, "title").Some? ==> r.title == FindChild(item, "title").value.text
    ensures r.link == PresentText(item, "link", "") && r.pubDate == PresentText(item, "pubDate", "")
    ensures r.description == PresentText(item, "description", "No description")
  {
    Story(
      title := PresentText(item, "title", "No title"),
      link := PresentText(item, "link", ""),
      description := PresentText(item, "description", "No description"),
      pubDate := PresentText(item, "pubDate", ""))
  }

  /** `parse_hn_rss`: one story per `item` below the root, in document order;
      any failure, a malformed document included, is the single record
      "Error parsing RSS: ...". */
  function ParseHn(doc: Document): (r: seq<Story>)
    ensures !doc.Parsed? ==> r == [ErrorRecord(RSS_ERROR_PREFIX + doc.message)]
    ensures doc.Parsed? ==> |r| == |FindAllDescendants(doc.root, "item")|
    ensures doc.Parsed? ==> forall i :: 0 <= i < |r| ==> r[i] == StoryOf(FindAllDescendants(doc.root, "item")[i])
    ensures (exists i :: 0 <= i < |r| && r[i].ErrorRecord?) ==> |r| == 1
  {
    match doc
    case ParseError(m) => [ErrorRecord(RSS_ERROR_PREFIX + m)]
    case OtherError(m) => [ErrorRecord(RSS_ERROR_PREFIX + m)]
    case Parsed(root) => Map(StoryOf, FindAllDescendants(root, "item"))
  }

  /** The story of every item, however deep: an `item` nested under any
      other element is read as well as one under a `channel`. */
  lemma EveryItemRead(root: Element, i: nat)
    requires i < |root.children| && root.children[i].tag == "item"
    ensures StoryOf(root.children[i]) in ParseHn(Parsed(root))
  {
    DeepIsDescendant(root, "item");
    var items := FindAllDescendants(root, "item");
    assert root.children[i] in items;
    var k :| 0 <= k < |items| && items[k] == root.children[i];
    assert ParseHn(Parsed(root))[k] == StoryOf(root.children[i]);
  }

  /** What `story.get(key, default)` shows: a story's own field, `None`
      rendered as "None"; the placeholder for an error record, which has no
      such key. */
  function ShownTitle(s: Story): string {
    if s.Story? then Show(s.title) else "Unknown"
  }

  function ShownLink(s: Story): string {
    if s.Story? then Show(s.link) else "No link"
  }

  function ShownPubDate(s: Story): string {
    if s.Story? then Show(s.pubDate) else "Unknown"
  }

  /** `format_hn_story`: Title, Link and Published lines between a leading and
      a trailing newline, for stories and error records alike. */
  function FormatStory(s: Story): (r: string)
    ensures r == "\nTitle: " + ShownTitle(s) + "\nLink: " + ShownLink(s) + "\nPublished: " + ShownPubDate(s) + "\n"
  {
    TitleAndLinkText(ShownTitle(s), ShownLink(s));
    assert "\nPublished: " == "\n" + "Published: ";
    AddLine(AddLine(TitleAndLink(ShownTitle(s), ShownLink(s)), "Published: " + ShownPubDate(s)), "")
  }

  /** The display splits into exactly five lines: a blank one, Title, Link,
      Published, and the empty one after the final newline. */
  lemma FormatStoryLines(s: Story)
    requires SingleLine(ShownTitle(s)) && SingleLine(ShownLink(s)) && SingleLine(ShownPubDate(s))
    ensures Lines(FormatStory(s)) == ["", "Title: " + ShownTitle(s), "Link: " + ShownLink(s)] + ["Published: " + ShownPubDate(s)] + [""]
  {
    var head := TitleAndLink(ShownTitle(s), ShownLink(s));
    TitleAndLinkLines(ShownTitle(s), ShownLink(s));
    LinesOfAddLine(head, "Published: " + ShownPubDate(s));
    LinesOfAddLine(AddLine(head, "Published: " + ShownPubDate(s)), "");
  }

  /** The description is read but never shown: stories differing only in it
      display the same. */
  lemma DescriptionNeverShown(s: Story, d: Option<string>)
    requires s.Story?
    ensures FormatStory(s.(description := d)) == FormatStory(s)
  {
  }

  /** An error record shows the placeholders "Unknown", "No link" and
      "Unknown", never its message: every error record displays the same. */
  lemma ErrorMessageNeverShown(m: string, m': string)
    ensures FormatStory(ErrorRecord(m)) == FormatStory(ErrorRecord(m'))
    ensures FormatStory(ErrorRecord(m)) == "\nTitle: " + "Unknown" + "\nLink: " + "No link" + "\nPublished: " + "Unknown" + "\n"
  {
  }
}
