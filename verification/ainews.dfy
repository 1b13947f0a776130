/** The AI News reader: only the latest post of the feed, with its full HTML
    content and the bullets of that content's "AI Twitter Recap" section. */
module AiNews {
  import opened Text
  import opened TextLines
  import opened Xml
  import opened Rss
  import opened TwitterRecap
  import opened Display

  /** A post as `parse_ainews_rss` records it. Title, link, description and
      publication date are `None` when their element is present but empty. */
  datatype Story =
    | Story(title: Option<string>, link: Option<string>, description: Option<string>, pubDate: Option<string>,
            content: string, twitterRecap: seq<RecapItem>, categories: seq<string>)
    | ErrorRecord(error: string)

  /** One `item` as a story: the four direct-child fields, the text of the
      first `content:encoded` below the item with its recap, and the
      non-empty texts of the direct `category` children. */
  function StoryOf(item: Element, unescape: string -> string): (r: Story)
    ensures r.Story?
    ensures r.title == PresentText(item, "title", "No title") && r.link == PresentText(item, "link", "")
    ensures r.description == PresentText(item, "description", "No description")
    ensures r.pubDate == PresentText(item, "pubDate", "")
    ensures r.content == TextOr(FindDescendant(item, CONTENT_ENCODED), "")
    ensures r.content == "" ==> r.twitterRecap == []
    ensures r.content != "" ==> r.twitterRecap == ExtractTwitterRecap(unescape, r.content)
    ensures r.categories == NonEmptyTexts(FindAllChildren(item, "category"))
    ensures forall i :: 0 <= i < |r.categories| ==> r.categories[i] != ""
  {
    var encoded := FindDescendant(item, CONTENT_ENCODED);
    var content := if encoded.Some? && encoded.value.text.Some? && encoded.value.text.value != ""
                   then encoded.value.text.value else "";
    Story(
      title := PresentText(item, "title", "No title"),
      link := PresentText(item, "link", ""),
      description := PresentText(item, "description", "No description"),
      pubDate := PresentText(item, "pubDate", ""),
      content := content,
      twitterRecap := if content != "" then ExtractTwitterRecap(unescape, content) else [],
      categories := NonEmptyTexts(FindAllChildren(item, "category")))
  }

  /** `parse_ainews_rss`: the error record of a failed parse, else the story
      of the first `item` anywhere below the root (no `channel` needed), or
      nothing when there is no item. */
  function ParseAinews(doc: Document, unescape: string -> string): (r: seq<Story>)
    ensures |r| <= 1
    ensures !doc.Parsed? ==> r == [ErrorRecord(FailureMessage(doc))]
    ensures doc.Parsed? ==> (r == [] <==> FindDescendant(doc.root, "item").None?)
    ensures doc.Parsed? && r != [] ==> r[0] == StoryOf(FindDescendant(doc.root, "item").value, unescape)
  {
    match doc
    case ParseError(_) => [ErrorRecord(FailureMessage(doc))]
    case OtherError(_) => [ErrorRecord(FailureMessage(doc))]
    case Parsed(root) =>
      var items := FindAllDescendants(root, "item");
      FirstIsHeadOfAll(Descendants(root), "item");
      if items != [] then [StoryOf(items[0], unescape)] else []
  }

  /** Items after the first never reach the result: any later posts may be
      added below the root without changing what is read. */
  lemma LaterItemsIgnored(root: Element, more: seq<Element>, unescape: string -> string)
    requires FindDescendant(root, "item").Some?
    ensures ParseAinews(Parsed(root.(children := root.children + more)), unescape) == ParseAinews(Parsed(root), unescape)
  {
    PreorderAppend(root.children, more);
    FirstWithTagAppend(Preorder(root.children), Preorder(more), "item");
  }

  // ---------------------------------------------------------------------
  // Display
  // ---------------------------------------------------------------------

  /** `f"Title: {t}\nLink: {l}\nDescription: {d}\n\n"` for one recap bullet. */
  function ItemText(it: RecapItem): string {
    AddLine(AddLine(AddLine(AddLine("Title: " + it.title, "Link: " + it.link), "Description: " + it.description), ""), "")
  }

  /** The recap bullets written one after another. */
  function RecapText(items: seq<RecapItem>): string {
    if items == [] then "" else ItemText(items[0]) + RecapText(items[1..])
  }

  /** The lines the recap bullets occupy: Title, Link, Description and a
      blank line for each, in order. */
  function RecapLines(items: seq<RecapItem>): (r: seq<string>)
    ensures |r| == 4 * |items|
  {
    if items == [] then []
    else
      var it := items[0];
      ["Title: " + it.title, "Link: " + it.link, "Description: " + it.description, ""] + RecapLines(items[1..])
  }

  /** The four lines of the `i`-th bullet sit at `4 * i`, in bullet order. */
  lemma {:induction false} RecapLinesAt(items: seq<RecapItem>, i: nat)
    requires i < |items|
    ensures 4 * i + 4 <= |RecapLines(items)|
    ensures RecapLines(items)[4 * i..4 * i + 4]
            == ["Title: " + items[i].title, "Link: " + items[i].link, "Description: " + items[i].description, ""]
  {
    if i > 0 {
      RecapLinesAt(items[1..], i - 1);
      var k := 4 * (i - 1);
      assert 4 * i == k + 4;
      assert RecapLines(items)[4 * i..4 * i + 4] == RecapLines(items[1..])[k..k + 4];
    }
  }

  predicate SingleLineItem(it: RecapItem) {
    SingleLine(it.title) && SingleLine(it.link) && SingleLine(it.description)
  }

  predicate SingleLineItems(items: seq<RecapItem>) {
    forall i :: 0 <= i < |items| ==> SingleLineItem(items[i])
  }

  /** Three single lines and an empty one, joined by newlines, split back
      into the same four lines. */
  lemma ThreeLines(a: string, b: string, c: string)
    requires SingleLine(a) && SingleLine(b) && SingleLine(c)
    ensures Lines(AddLine(AddLine(AddLine(a, b), c), "")) == [a, b, c, ""]
  {
    LinesOfSingleLine(a);
    LinesOfAddLine(a, b);
    LinesOfAddLine(AddLine(a, b), c);
    LinesOfAddLine(AddLine(AddLine(a, b), c), "");
  }

  /** One bullet occupies four lines; what follows it starts a new line. */
  lemma ItemTextLines(it: RecapItem, rest: string)
    requires SingleLineItem(it)
    ensures Lines(ItemText(it) + rest) == ["Title: " + it.title, "Link: " + it.link, "Description: " + it.description, ""] + Lines(rest)
  {
    var w := AddLine(AddLine(AddLine("Title: " + it.title, "Link: " + it.link), "Description: " + it.description), "");
    ThreeLines("Title: " + it.title, "Link: " + it.link, "Description: " + it.description);
    assert ItemText(it) == w + "\n";
    assert ItemText(it) + rest == AddLine(w, rest);
    AddLineLines(w, rest);
  }

  /** Whatever follows the recap starts on the line after the last bullet's
      blank line. */
  lemma {:induction false} RecapTextLines(items: seq<RecapItem>, rest: string)
    requires SingleLineItems(items)
    ensures Lines(RecapText(items) + rest) == RecapLines(items) + Lines(rest)
  {
    if items == [] {
      assert RecapText(items) + rest == rest;
    } else {
      var tail := RecapText(items[1..]) + rest;
      assert SingleLineItem(items[0]);
      assert SingleLineItems(items[1..]) by {
        forall i | 0 <= i < |items[1..]| ensures SingleLineItem(items[1..][i]) {
          assert items[1..][i] == items[i + 1];
        }
      }
      RecapTextLines(items[1..], rest);
      ItemTextLines(items[0], tail);
      ConcatAssoc(ItemText(items[0]), RecapText(items[1..]), rest);
    }
  }

  /** The recap, when there is one, after two blank lines. */
  function WithRecap(text: string, items: seq<RecapItem>): string {
    if items != [] then AddLine(AddLine(text, ""), RecapText(items)) else text
  }

  /** The lines the recap adds to a display: two blank lines and the
      bullets, only when there are bullets. */
  function RecapMiddle(items: seq<RecapItem>): seq<string> {
    if items != [] then ["", ""] + RecapLines(items) else []
  }

  lemma WithRecapLines(text: string, textLines: seq<string>, items: seq<RecapItem>)
    requires Lines(text) == textLines + [""]
    requires SingleLineItems(items)
    ensures Lines(WithRecap(text, items)) == textLines + RecapMiddle(items) + [""]
  {
    if items != [] {
      RecapTextLines(items, "");
      assert RecapText(items) + "" == RecapText(items);
      AfterBlankLines(text, textLines, RecapText(items), RecapLines(items));
    } else {
      assert textLines + [] == textLines;
    }
  }

  lemma AfterBlankLines(text: string, textLines: seq<string>, more: string, moreLines: seq<string>)
    requires Lines(text) == textLines + [""]
    requires Lines(more) == moreLines + [""]
    ensures Lines(AddLine(AddLine(text, ""), more)) == textLines + (["", ""] + moreLines) + [""]
  {
    AddLineLines(text, "");
    AddLineLines(AddLine(text, ""), more);
    ConcatAssoc(textLines + [""] + [""], moreLines, [""]);
    assert textLines + [""] + [""] + moreLines == textLines + (["", ""] + moreLines);
  }

  /** `format_ainews_story`: an error record shows its message; a story shows
      Title, Link, Description and Published, then — only when there is a
      recap — two blank lines and the recap bullets, then a Categories line
      only when there are categories. */
  function FormatStory(s: Story): (r: string)
    ensures s.ErrorRecord? ==> r == "ERROR: " + s.error
  {
    match s
    case ErrorRecord(e) => "ERROR: " + e
    case Story(_, _, _, _, _, _, _) => WithCategories(WithRecap(StoryHead(s), s.twitterRecap), s.categories)
  }

  /** The fixed part of a story's display: the f-string block of Title,
      Link, Description and Published, closed by a newline. */
  function StoryHead(s: Story): string
    requires s.Story?
  {
    AddLine(AddLine(AddLine(AddLine(AddLine("", "Title: " + Show(s.title)), "Link: " + Show(s.link)),
                            "Description: " + Show(s.description)), "Published: " + Show(s.pubDate)), "")
  }

  function HeadLines(s: Story): seq<string>
    requires s.Story?
  {
    ["", "Title: " + Show(s.title), "Link: " + Show(s.link), "Description: " + Show(s.description),
     "Published: " + Show(s.pubDate)]
  }

  /** The display, line by line: a blank line, Title, Link, Description,
      Published, the recap block, a blank line, and Categories when present. */
  function DisplayLines(s: Story): seq<string>
    requires s.Story?
  {
    HeadLines(s) + RecapMiddle(s.twitterRecap) + [""] + CategoryLines(s.categories)
  }

  predicate SingleLineFields(s: Story)
    requires s.Story?
  {
    SingleLine(Show(s.title)) && SingleLine(Show(s.link)) && SingleLine(Show(s.description))
    && SingleLine(Show(s.pubDate))
  }

  lemma StoryHeadLines(s: Story)
    requires s.Story? && SingleLineFields(s)
    ensures Lines(StoryHead(s)) == HeadLines(s) + [""]
  {
    BlockLines("Title: " + Show(s.title), "Link: " + Show(s.link), "Description: " + Show(s.description),
               "Published: " + Show(s.pubDate));
  }

  /** A newline, then four single lines each ended by a newline. */
  lemma BlockLines(a: string, b: string, c: string, d: string)
    requires SingleLine(a) && SingleLine(b) && SingleLine(c) && SingleLine(d)
    ensures Lines(AddLine(AddLine(AddLine(AddLine(AddLine("", a), b), c), d), "")) == ["", a, b, c, d] + [""]
  {
    LinesOfAddLine("", a);
    LinesOfAddLine(AddLine("", a), b);
    LinesOfAddLine(AddLine(AddLine("", a), b), c);
    LinesOfAddLine(AddLine(AddLine(AddLine("", a), b), c), d);
    LinesOfAddLine(AddLine(AddLine(AddLine(AddLine("", a), b), c), d), "");
  }

  /** Splitting a formatted story at its newlines gives exactly the display
      lines, whenever no shown field holds a newline of its own. */
  lemma FormatStoryLines(s: Story)
    requires s.Story? && SingleLineFields(s)
    requires SingleLineItems(s.twitterRecap)
    requires forall i :: 0 <= i < |s.categories| ==> SingleLine(s.categories[i])
    ensures Lines(FormatStory(s)) == DisplayLines(s)
  {
    StoryHeadLines(s);
    WithRecapLines(StoryHead(s), HeadLines(s), s.twitterRecap);
    WithCategoriesLines(WithRecap(StoryHead(s), s.twitterRecap), s.categories);
  }

  /** One recap bullet is the text `f"Title: {t}\nLink: {l}\nDescription: {d}\n\n"` spells. */
  lemma ItemTextIs(it: RecapItem)
    ensures ItemText(it) == "Title: " + it.title + "\nLink: " + it.link + "\nDescription: " + it.description + "\n\n"
  {
  }

  /** The fixed head is the text its f-string spells. */
  lemma StoryHeadText(s: Story)
    requires s.Story?
    ensures StoryHead(s) == "\nTitle: " + Show(s.title) + "\nLink: " + Show(s.link)
                            + "\nDescription: " + Show(s.description) + "\nPublished: " + Show(s.pubDate) + "\n"
  {
    HeadText(Show(s.title), Show(s.link), Show(s.description), Show(s.pubDate));
  }

  /** The head's five `AddLine` steps spell the f-string's lines. */
  lemma HeadText(title: string, link: string, description: string, pubDate: string)
    ensures AddLine(AddLine(AddLine(AddLine(AddLine("", "Title: " + title), "Link: " + link),
                                    "Description: " + description), "Published: " + pubDate), "")
            == "\nTitle: " + title + "\nLink: " + link + "\nDescription: " + description
               + "\nPublished: " + pubDate + "\n"
  {
    var tl := TitleAndLink(title, link);
    TitleAndLinkText(title, link);
    var described := AddLine(tl, "Description: " + description);
    assert described == tl + "\nDescription: " + description;
    PublishedText(described, pubDate);
  }

  /** The story display is the text the formatter spells: the head, then
      "\n\n" and the bullets only when there is a recap, then the Categories
      line only when there are categories. */
  lemma FormatStoryText(s: Story)
    requires s.Story?
    ensures FormatStory(s) == "\nTitle: " + Show(s.title) + "\nLink: " + Show(s.link)
                              + "\nDescription: " + Show(s.description) + "\nPublished: " + Show(s.pubDate) + "\n"
                              + (if s.twitterRecap != [] then "\n\n" + RecapText(s.twitterRecap) else "")
                              + (if s.categories != [] then "\nCategories: " + Join(s.categories, ", ") else "")
  {
    StoryHeadText(s);
    TailText(StoryHead(s), s.twitterRecap, s.categories);
  }

  /** What the recap and the Categories line add after the head. */
  lemma TailText(head: string, items: seq<RecapItem>, categories: seq<string>)
    ensures WithCategories(WithRecap(head, items), categories)
            == head + (if items != [] then "\n\n" + RecapText(items) else "")
               + (if categories != [] then "\nCategories: " + Join(categories, ", ") else "")
  {
    WithRecapText(head, items);
    WithCategoriesText(WithRecap(head, items), categories);
  }

  /** The recap as the formatter spells it: "\n\n", then the bullets. */
  lemma WithRecapText(head: string, items: seq<RecapItem>)
    ensures WithRecap(head, items) == head + (if items != [] then "\n\n" + RecapText(items) else "")
  {
    if items != [] {
      var t := RecapText(items);
      assert AddLine(head, "") == head + "\n";
      assert AddLine(head + "\n", t) == head + "\n" + "\n" + t;
      assert "\n" + "\n" == "\n\n";
      ConcatAssoc(head, "\n\n", t);
    }
  }
}
