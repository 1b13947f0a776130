/** The Wall Street Journal reader: a channel of items, each normalised to an
    article with every author joined, the first category, and an image taken
    from Media RSS content, then thumbnail, then enclosure. */
module Wsj {
  import opened Text
  import opened TextLines
  import opened Xml
  import opened Rss
  import opened Seqs
  import opened Display

  datatype Article =
    | Article(title: string, link: string, pubDate: string, description: string,
              author: string, guid: string, category: string, id: string, imageUrl: string)
    | ErrorRecord(error: string)

  /** `get_element_text` of this reader: the direct child first; only when
      there is no direct child at all, the first Dublin Core creator below
      (for "creator") or the first element with the tag at depth two or more.
      A direct child with empty text gives the default, with no fallback. */
  function GetElementText(e: Element, tag: string, default: string): (r: string)
    ensures FindChild(e, tag).Some? ==> r == ChildText(e, tag, default)
    ensures FindChild(e, tag).None? && tag == "creator" ==> r == TextOr(FindDescendant(e, DC_CREATOR), default)
    ensures FindChild(e, tag).None? && tag != "creator" ==> r == TextOr(FindDeep(e, tag), default)
    ensures r == "" ==> default == ""
  {
    var found :=
      match FindChild(e, tag)
      case Some(c) => Some(c)
      case None => if tag == "creator" then FindDescendant(e, DC_CREATOR) else FindDeep(e, tag);
    TextOr(found, default)
  }

  /** The fallback only widens the plain lookup: whenever the plain
      direct-child lookup finds a text, this reader returns the same text. */
  lemma GetElementTextExtendsChildText(e: Element, tag: string, default: string)
    requires ChildText(e, tag, default) != default
    ensures GetElementText(e, tag, default) == ChildText(e, tag, default)
  {
  }

  /** `url` attribute of a looked-up element, if both exist. */
  function UrlOf(found: Option<Element>): (r: Option<string>)
    ensures r.Some? <==> found.Some? && "url" in found.value.attrs
    ensures r.Some? ==> r.value == found.value.attrs["url"]
  {
    if found.Some? && "url" in found.value.attrs then Some(found.value.attrs["url"]) else None
  }

  /** `extract_image_url`: the first of media:content's url (anywhere below),
      media:thumbnail's url (anywhere below), a direct enclosure's url; else "". */
  function ImageUrl(item: Element): (r: string)
    ensures UrlOf(FindDescendant(item, MEDIA_CONTENT)).Some? ==> r == UrlOf(FindDescendant(item, MEDIA_CONTENT)).value
    ensures UrlOf(FindDescendant(item, MEDIA_CONTENT)).None? && UrlOf(FindDescendant(item, MEDIA_THUMBNAIL)).Some?
            ==> r == UrlOf(FindDescendant(item, MEDIA_THUMBNAIL)).value
    ensures UrlOf(FindDescendant(item, MEDIA_CONTENT)).None? && UrlOf(FindDescendant(item, MEDIA_THUMBNAIL)).None?
            ==> r == (if UrlOf(FindChild(item, "enclosure")).Some? then UrlOf(FindChild(item, "enclosure")).value else "")
  {
    match UrlOf(FindDescendant(item, MEDIA_CONTENT))
    case Some(u) => u
    case None =>
      match UrlOf(FindDescendant(item, MEDIA_THUMBNAIL))
      case Some(u) => u
      case None =>
        match UrlOf(FindChild(item, "enclosure"))
        case Some(u) => u
        case None => ""
  }

  /** Media content takes precedence: once an item has a media:content
      element with a url, no thumbnail, enclosure or other element appended
      to it changes the image. */
  lemma ContentUrlWins(item: Element, extra: seq<Element>)
    requires UrlOf(FindDescendant(item, MEDIA_CONTENT)).Some?
    ensures ImageUrl(item.(children := item.children + extra)) == ImageUrl(item)
  {
    PreorderAppend(item.children, extra);
    FirstWithTagAppend(Preorder(item.children), Preorder(extra), MEDIA_CONTENT);
  }

  /** Every Dublin Core creator below the item with a non-empty text, joined
      with ", " in document order; "" when there is none. */
  function Authors(item: Element): (r: string)
    ensures r == Join(NonEmptyTexts(FindAllDescendants(item, DC_CREATOR)), ", ")
    ensures r == "" <==> NonEmptyTexts(FindAllDescendants(item, DC_CREATOR)) == []
  {
    var creators := FindAllDescendants(item, DC_CREATOR);
    if creators != [] then Join(NonEmptyTexts(creators), ", ") else ""
  }

  /** One item as an article: every text field through this reader's
      `get_element_text` with its default, the joined authors and the image. */
  function ArticleOf(item: Element): (r: Article)
    ensures r.Article?
    ensures r.title != "" && r.description != ""
    ensures r.title == GetElementText(item, "title", "No title")
    ensures r.link == GetElementText(item, "link", "")
    ensures r.pubDate == GetElementText(item, "pubDate", "")
    ensures r.description == GetElementText(item, "description", "No description")
    ensures r.guid == GetElementText(item, "guid", "")
    ensures r.category == GetElementText(item, "category", "")
    ensures r.id == GetElementText(item, "id", "")
    ensures r.author == Authors(item) && r.imageUrl == ImageUrl(item)
  {
    Article(
      title := GetElementText(item, "title", "No title"),
      link := GetElementText(item, "link", ""),
      pubDate := GetElementText(item, "pubDate", ""),
      description := GetElementText(item, "description", "No description"),
      author := Authors(item),
      guid := GetElementText(item, "guid", ""),
      category := GetElementText(item, "category", ""),
      id := GetElementText(item, "id", ""),
      imageUrl := ImageUrl(item))
  }

  /** `parse_wsj_rss`: the single error record for a failed parse or a root
      without a direct `channel`, otherwise one article per direct `item` of
      the channel, in document order, each from its own item alone. */
  function ParseWsj(doc: Document): (r: seq<Article>)
    ensures !doc.Parsed? ==> r == [ErrorRecord(FailureMessage(doc))]
    ensures doc.Parsed? && FindChild(doc.root, "channel").None? ==> r == [ErrorRecord(NO_CHANNEL_ERROR)]
    ensures doc.Parsed? && FindChild(doc.root, "channel").Some? ==>
              var items := FindAllChildren(FindChild(doc.root, "channel").value, "item");
              |r| == |items| && forall i :: 0 <= i < |r| ==> r[i] == ArticleOf(items[i])
    ensures (exists i :: 0 <= i < |r| && r[i].ErrorRecord?) ==> |r| == 1
  {
    match doc
    case ParseError(_) => [ErrorRecord(FailureMessage(doc))]
    case OtherError(_) => [ErrorRecord(FailureMessage(doc))]
    case Parsed(root) =>
      match FindChild(root, "channel")
      case None => [ErrorRecord(NO_CHANNEL_ERROR)]
      case Some(channel) => Map(ArticleOf, FindAllChildren(channel, "item"))
  }

  /** `format_wsj_story`: an error record shows its message; an article shows
      Title and Link, Author only when there is one, Published, then the
      description after a blank line, each on a line of its own. */
  function FormatArticle(a: Article): (r: string)
    ensures a.ErrorRecord? ==> r == "ERROR: " + a.error
  {
    match a
    case ErrorRecord(e) => "ERROR: " + e
    case Article(_, _, _, _, _, _, _, _, _) =>
      var head := WithField(TitleAndLink(a.title, a.link), "Author: ", a.author);
      WithDescription(AddLine(head, "Published: " + a.pubDate), a.description)
  }

  /** The display, line by line: a blank line, Title, Link, Author only when
      there is one, Published, a blank line, the description's lines, and a
      final empty line after the trailing newline. */
  function DisplayLines(a: Article): seq<string>
    requires a.Article?
  {
    ["", "Title: " + a.title, "Link: " + a.link] + FieldLines("Author: ", a.author)
    + ["Published: " + a.pubDate] + [""] + Lines(a.description) + [""]
  }

  /** Splitting a formatted article at its newlines gives exactly the display
      lines, whenever the one-line fields hold no newline of their own. */
  lemma FormatArticleLines(a: Article)
    requires a.Article?
    requires SingleLine(a.title) && SingleLine(a.link) && SingleLine(a.author) && SingleLine(a.pubDate)
    ensures Lines(FormatArticle(a)) == DisplayLines(a)
  {
    var head := WithField(TitleAndLink(a.title, a.link), "Author: ", a.author);
    TitleAndLinkLines(a.title, a.link);
    WithFieldLines(TitleAndLink(a.title, a.link), "Author: ", a.author);
    LinesOfAddLine(head, "Published: " + a.pubDate);
    WithDescriptionLines(AddLine(head, "Published: " + a.pubDate), a.description);
  }

  /** The article display is the text the formatter's f-strings spell. */
  lemma FormatArticleText(a: Article)
    requires a.Article?
    ensures FormatArticle(a) == "\nTitle: " + a.title + "\nLink: " + a.link
                                + (if a.author != "" then "\nAuthor: " + a.author else "")
                                + "\nPublished: " + a.pubDate + "\n\n" + a.description + "\n"
  {
    var tl := TitleAndLink(a.title, a.link);
    TitleAndLinkText(a.title, a.link);
    WithFieldText(tl, "Author: ", a.author);
    assert "\n" + "Author: " == "\nAuthor: ";
    var head := WithField(tl, "Author: ", a.author);
    PublishedText(head, a.pubDate);
    WithDescriptionText(AddLine(head, "Published: " + a.pubDate), a.description);
  }
}
