/** The TechCrunch reader: a channel of items with the first author, the
    GUID together with its permalink flag, and every category. */
module TechCrunch {
  import opened Text
  import opened TextLines
  import opened Xml
  import opened Rss
  import opened Seqs
  import opened Display

  datatype Article =
    | Article(title: string, link: string, pubDate: string, description: string, author: string,
              guid: string, guidPermalink: string, categories: seq<string>)
    | ErrorRecord(error: string)

  /** The GUID of an item and its permalink flag: for a direct `guid` child,
      its text (or "" when it has none) and its `isPermaLink` attribute
      verbatim (or "false"); without one, "" and "false". */
  function Guid(item: Element): (r: (string, string))
    ensures FindChild(item, "guid").None? ==> r == ("", "false")
    ensures FindChild(item, "guid").Some? ==>
              var g := FindChild(item, "guid").value;
              && r.0 == (if g.text.Some? then g.text.value else "")
              && r.1 == (if "isPermaLink" in g.attrs then g.attrs["isPermaLink"] else "false")
  {
    match FindChild(item, "guid")
    case None => ("", "false")
    case Some(g) =>
      (if g.text.Some? then g.text.value else "",
       if "isPermaLink" in g.attrs then g.attrs["isPermaLink"] else "false")
  }

  /** One `item` as an article; the author is the text of the first Dublin
      Core creator below it. */
  function ArticleOf(item: Element): (r: Article)
    ensures r.Article?
    ensures r.title == ChildText(item, "title", "No title") && r.link == ChildText(item, "link", "")
    ensures r.pubDate == ChildText(item, "pubDate", "")
    ensures r.description == ChildText(item, "description", "No description")
    ensures r.author == TextOr(FindDescendant(item, DC_CREATOR), "")
    ensures (r.guid, r.guidPermalink) == Guid(item)
    ensures r.categories == NonEmptyTexts(FindAllChildren(item, "category"))
  {
    var (guid, permalink) := Guid(item);
    Article(
      title := ChildText(item, "title", "No title"),
      link := ChildText(item, "link", ""),
      pubDate := ChildText(item, "pubDate", ""),
      description := ChildText(item, "description", "No description"),
      author := TextOr(FindDescendant(item, DC_CREATOR), ""),
      guid := guid,
      guidPermalink := permalink,
      categories := NonEmptyTexts(FindAllChildren(item, "category")))
  }

  /** Appending children to an item: the GUID and its flag, like every
      single-valued field, stay those of the first child with the tag. */
  lemma AppendedChildrenKeepFirst(item: Element, extra: seq<Element>)
    ensures FindChild(item, "guid").Some? ==> Guid(item.(children := item.children + extra)) == Guid(item)
    ensures FindChild(item, "title").Some? ==>
              ArticleOf(item.(children := item.children + extra)).title == ArticleOf(item).title
  {
    if FindChild(item, "guid").Some? {
      FirstWithTagAppend(item.children, extra, "guid");
    }
    if FindChild(item, "title").Some? {
      ChildTextIgnoresLaterChildren(item, extra, "title", "No title");
    }
  }

  /** Appending children to an item adds their categories after the
      existing ones, in order. */
  lemma AppendedCategories(item: Element, extra: seq<Element>)
    ensures ArticleOf(item.(children := item.children + extra)).categories
            == ArticleOf(item).categories + NonEmptyTexts(WithTag(extra, "category"))
  {
    WithTagAppend(item.children, extra, "category");
    NonEmptyTextsAppend(WithTag(item.children, "category"), WithTag(extra, "category"));
  }

  /** `parse_tc_rss`: the single error record for a failed parse or a root
      without a direct `channel`, otherwise one article per direct `item` of
      the channel, in document order. */
  function ParseTc(doc: Document): (r: seq<Article>)
    ensures !doc.Parsed? ==> r == [ErrorRecord(FailureMessage(doc))]
    ensures doc.Parsed? && FindChild(doc.root, "channel").None? ==> r == [ErrorRecord(NO_CHANNEL_ERROR)]
    ensures doc.Parsed? && FindChild(doc.root, "channel").Some? ==>
              var items := FindAllChildren(FindChild(doc.root, "channel").value, "item");
              |r| == |items| && forall i :: 0 <= i < |r| ==> r[i] == ArticleOf(items[i])
    ensures (exists i :: 0 <= i < |r| && r[i].ErrorRecord?) ==> |r| == 1
  {
    match doc
    case ParseError(_) => [ErrorRecord(FailureMessage(doc))]
    case OtherError(_) => [ErrorRecord(FailureMessage(doc))]
    case Parsed(root) =>
      match FindChild(root, "channel")
      case None => [ErrorRecord(NO_CHANNEL_ERROR)]
      case Some(channel) => Map(ArticleOf, FindAllChildren(channel, "item"))
  }

  /** Everything up to the description: Title, Link, Author when present,
      Published, and Categories when present. */
  function Header(a: Article): string
    requires a.Article?
  {
    var named := WithField(TitleAndLink(a.title, a.link), "Author: ", a.author);
    WithCategories(AddLine(named, "Published: " + a.pubDate), a.categories)
  }

  /** `format_tc_story`: an error record shows its message; an article shows
      its header lines, a blank line and the description. */
  function FormatArticle(a: Article): (r: string)
    ensures a.ErrorRecord? ==> r == "ERROR: " + a.error
  {
    match a
    case ErrorRecord(e) => "ERROR: " + e
    case Article(_, _, _, _, _, _, _, _) => WithDescription(Header(a), a.description)
  }

  /** The article display is the text the formatter's f-strings spell. */
  lemma FormatArticleText(a: Article)
    requires a.Article?
    ensures FormatArticle(a) == "\nTitle: " + a.title + "\nLink: " + a.link
                                + (if a.author != "" then "\nAuthor: " + a.author else "")
                                + "\nPublished: " + a.pubDate
                                + (if a.categories != [] then "\nCategories: " + Join(a.categories, ", ") else "")
                                + "\n\n" + a.description + "\n"
  {
    var tl := TitleAndLink(a.title, a.link);
    TitleAndLinkText(a.title, a.link);
    WithFieldText(tl, "Author: ", a.author);
    assert "\n" + "Author: " == "\nAuthor: ";
    var named := WithField(tl, "Author: ", a.author);
    PublishedText(named, a.pubDate);
    WithCategoriesText(AddLine(named, "Published: " + a.pubDate), a.categories);
    WithDescriptionText(Header(a), a.description);
  }

  /** The display, line by line. */
  function DisplayLines(a: Article): seq<string>
    requires a.Article?
  {
    ["", "Title: " + a.title, "Link: " + a.link] + FieldLines("Author: ", a.author)
    + ["Published: " + a.pubDate] + CategoryLines(a.categories) + [""] + Lines(a.description) + [""]
  }

  /** Splitting a formatted article at its newlines gives exactly the display
      lines, whenever the one-line fields hold no newline of their own. */
  lemma FormatArticleLines(a: Article)
    requires a.Article?
    requires SingleLine(a.title) && SingleLine(a.link) && SingleLine(a.author) && SingleLine(a.pubDate)
    requires forall i :: 0 <= i < |a.categories| ==> SingleLine(a.categories[i])
    ensures Lines(FormatArticle(a)) == DisplayLines(a)
  {
    var tl := TitleAndLink(a.title, a.link);
    TitleAndLinkLines(a.title, a.link);
    WithFieldLines(tl, "Author: ", a.author);
    var named := WithField(tl, "Author: ", a.author);
    LinesOfAddLine(named, "Published: " + a.pubDate);
    WithCategoriesLines(AddLine(named, "Published: " + a.pubDate), a.categories);
    WithDescriptionLines(Header(a), a.description);
  }
}
