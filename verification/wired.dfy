/** The Wired reader: a channel of items with first-author and section
    fields, every category, and the media thumbnail with its size. */
module Wired {
  import opened Text
  import opened TextLines
  import opened Xml
  import opened Rss
  import opened Seqs
  import opened Display

  datatype Article =
    | Article(title: string, link: string, pubDate: string, description: string, guid: string,
              author: string, subject: string, categories: seq<string>,
              imageUrl: string, imageWidth: string, imageHeight: string)
    | ErrorRecord(error: string)

  /** `attrib.get(key, "")` */
  function AttrOr(e: Element, key: string): (r: string)
    ensures key in e.attrs ==> r == e.attrs[key]
    ensures key !in e.attrs ==> r == ""
  {
    if key in e.attrs then e.attrs[key] else ""
  }

  /** The image of an item: url, width and height of the first media
      thumbnail below it, when that thumbnail has a url; else all "". */
  function ThumbnailImage(item: Element): (r: (string, string, string))
    ensures var thumb := FindDescendant(item, MEDIA_THUMBNAIL);
            if thumb.Some? && "url" in thumb.value.attrs
            then r == (thumb.value.attrs["url"], AttrOr(thumb.value, "width"), AttrOr(thumb.value, "height"))
            else r == ("", "", "")
  {
    match FindDescendant(item, MEDIA_THUMBNAIL)
    case Some(thumb) =>
      if "url" in thumb.attrs then (thumb.attrs["url"], AttrOr(thumb, "width"), AttrOr(thumb, "height"))
      else ("", "", "")
    case None => ("", "", "")
  }

  /** One `item` as an article. The author and the section are the texts of
      the first Dublin Core creator and subject below the item, never joined. */
  function ArticleOf(item: Element): (r: Article)
    ensures r.Article?
    ensures r.title == ChildText(item, "title", "No title") && r.link == ChildText(item, "link", "")
    ensures r.pubDate == ChildText(item, "pubDate", "") && r.guid == ChildText(item, "guid", "")
    ensures r.description == ChildText(item, "description", "No description")
    ensures r.author == TextOr(FindDescendant(item, DC_CREATOR), "")
    ensures r.subject == TextOr(FindDescendant(item, DC_SUBJECT), "")
    ensures r.categories == NonEmptyTexts(FindAllChildren(item, "category"))
    ensures (r.imageUrl, r.imageWidth, r.imageHeight) == ThumbnailImage(item)
  {
    var (url, width, height) := ThumbnailImage(item);
    Article(
      title := ChildText(item, "title", "No title"),
      link := ChildText(item, "link", ""),
      pubDate := ChildText(item, "pubDate", ""),
      description := ChildText(item, "description", "No description"),
      guid := ChildText(item, "guid", ""),
      author := TextOr(FindDescendant(item, DC_CREATOR), ""),
      subject := TextOr(FindDescendant(item, DC_SUBJECT), ""),
      categories := NonEmptyTexts(FindAllChildren(item, "category")),
      imageUrl := url, imageWidth := width, imageHeight := height)
  }

  /** The image comes from the thumbnail alone: appending elements that hold
      no thumbnail (media content, enclosures, anything else) never changes
      it, where the Wall Street Journal reader would fall back to them. */
  lemma ImageOnlyFromThumbnail(item: Element, extra: seq<Element>)
    requires forall i :: 0 <= i < |Preorder(extra)| ==> Preorder(extra)[i].tag != MEDIA_THUMBNAIL
    ensures ThumbnailImage(item.(children := item.children + extra)) == ThumbnailImage(item)
  {
    PreorderAppend(item.children, extra);
    FirstWithTagSkipsTail(Preorder(item.children), Preorder(extra), MEDIA_THUMBNAIL);
  }

  /** `parse_wired_rss`: the single error record for a failed parse or a root
      without a direct `channel`, otherwise one article per direct `item` of
      the channel, in document order. */
  function ParseWired(doc: Document): (r: seq<Article>)
    ensures !doc.Parsed? ==> r == [ErrorRecord(FailureMessage(doc))]
    ensures doc.Parsed? && FindChild(doc.root, "channel").None? ==> r == [ErrorRecord(NO_CHANNEL_ERROR)]
    ensures doc.Parsed? && FindChild(doc.root, "channel").Some? ==>
              var items := FindAllChildren(FindChild(doc.root, "channel").value, "item");
              |r| == |items| && forall i :: 0 <= i < |r| ==> r[i] == ArticleOf(items[i])
    ensures (exists i :: 0 <= i < |r| && r[i].ErrorRecord?) ==> |r| == 1
  {
    match doc
    case ParseError(_) => [ErrorRecord(FailureMessage(doc))]
    case OtherError(_) => [ErrorRecord(FailureMessage(doc))]
    case Parsed(root) =>
      match FindChild(root, "channel")
      case None => [ErrorRecord(NO_CHANNEL_ERROR)]
      case Some(channel) => Map(ArticleOf, FindAllChildren(channel, "item"))
  }

  /** Everything up to the description: Title, Link, Author and Subject when
      present, Published, and Categories when present. */
  function Header(a: Article): string
    requires a.Article?
  {
    var named := WithField(WithField(TitleAndLink(a.title, a.link), "Author: ", a.author), "Subject: ", a.subject);
    WithCategories(AddLine(named, "Published: " + a.pubDate), a.categories)
  }

  /** `format_wired_story`: an error record shows its message; an article
      shows its header lines, a blank line and the description. */
  function FormatArticle(a: Article): (r: string)
    ensures a.ErrorRecord? ==> r == "ERROR: " + a.error
  {
    match a
    case ErrorRecord(e) => "ERROR: " + e
    case Article(_, _, _, _, _, _, _, _, _, _, _) => WithDescription(Header(a), a.description)
  }

  /** The article display is the text the formatter's f-strings spell. */
  lemma FormatArticleText(a: Article)
    requires a.Article?
    ensures FormatArticle(a) == "\nTitle: " + a.title + "\nLink: " + a.link
                                + (if a.author != "" then "\nAuthor: " + a.author else "")
                                + (if a.subject != "" then "\nSubject: " + a.subject else "")
                                + "\nPublished: " + a.pubDate
                                + (if a.categories != [] then "\nCategories: " + Join(a.categories, ", ") else "")
                                + "\n\n" + a.description + "\n"
  {
    var tl := TitleAndLink(a.title, a.link);
    TitleAndLinkText(a.title, a.link);
    WithFieldText(tl, "Author: ", a.author);
    assert "\n" + "Author: " == "\nAuthor: ";
    var withAuthor := WithField(tl, "Author: ", a.author);
    WithFieldText(withAuthor, "Subject: ", a.subject);
    assert "\n" + "Subject: " == "\nSubject: ";
    var named := WithField(withAuthor, "Subject: ", a.subject);
    PublishedText(named, a.pubDate);
    WithCategoriesText(AddLine(named, "Published: " + a.pubDate), a.categories);
    WithDescriptionText(Header(a), a.description);
  }

  /** The display, line by line. */
  function DisplayLines(a: Article): seq<string>
    requires a.Article?
  {
    ["", "Title: " + a.title, "Link: " + a.link] + FieldLines("Author: ", a.author) + FieldLines("Subject: ", a.subject)
    + ["Published: " + a.pubDate] + CategoryLines(a.categories) + [""] + Lines(a.description) + [""]
  }

  /** Splitting a formatted article at its newlines gives exactly the display
      lines, whenever the one-line fields hold no newline of their own. */
  lemma FormatArticleLines(a: Article)
    requires a.Article?
    requires SingleLine(a.title) && SingleLine(a.link) && SingleLine(a.author) && SingleLine(a.subject)
    requires SingleLine(a.pubDate) && forall i :: 0 <= i < |a.categories| ==> SingleLine(a.categories[i])
    ensures Lines(FormatArticle(a)) == DisplayLines(a)
  {
    var tl := TitleAndLink(a.title, a.link);
    TitleAndLinkLines(a.title, a.link);
    WithFieldLines(tl, "Author: ", a.author);
    var withAuthor := WithField(tl, "Author: ", a.author);
    WithFieldLines(withAuthor, "Subject: ", a.subject);
    var named := WithField(withAuthor, "Subject: ", a.subject);
    LinesOfAddLine(named, "Published: " + a.pubDate);
    WithCategoriesLines(AddLine(named, "Published: " + a.pubDate), a.categories);
    WithDescriptionLines(Header(a), a.description);
  }
}
