/** The building blocks the story formatters share: each one is a
    `formatted += f"\n..."` step, paired with the lines it adds to the
    display when the result is split at its newlines. */
module Display {
  import opened Text
  import opened TextLines

  /** How an f-string shows a text that may be `None`. */
  function Show(t: Option<string>): (r: string)
    ensures t.Some? ==> r == t.value
    ensures r == "None" <==> t == None || t == Some("None")
  {
    if t.Some? then t.value else "None"
  }

  /** `if value: formatted += f"\n{caption}{value}"` */
  function WithField(text: string, caption: string, value: string): string {
    if value != "" then AddLine(text, caption + value) else text
  }

  /** The line an optional field adds: one line, only when it is non-empty. */
  function FieldLines(caption: string, value: string): seq<string> {
    if value != "" then [caption + value] else []
  }

  lemma WithFieldLines(text: string, caption: string, value: string)
    requires SingleLine(caption) && SingleLine(value)
    ensures Lines(WithField(text, caption, value)) == Lines(text) + FieldLines(caption, value)
  {
    if value != "" {
      LinesOfAddLine(text, caption + value);
    } else {
      assert Lines(text) + [] == Lines(text);
    }
  }

  /** `formatted += f"\nCategories: {', '.join(categories)}"` when there are
      categories. */
  function WithCategories(text: string, categories: seq<string>): string {
    if categories != [] then AddLine(text, "Categories: " + Join(categories, ", ")) else text
  }

  /** The Categories line: one line, only when there are categories. */
  function CategoryLines(categories: seq<string>): seq<string> {
    if categories != [] then ["Categories: " + Join(categories, ", ")] else []
  }

  lemma WithCategoriesLines(text: string, categories: seq<string>)
    requires forall i :: 0 <= i < |categories| ==> SingleLine(categories[i])
    ensures Lines(WithCategories(text, categories)) == Lines(text) + CategoryLines(categories)
  {
    if categories != [] {
      JoinAvoids(categories, ", ", '\n');
      LinesOfAddLine(text, "Categories: " + Join(categories, ", "));
    } else {
      assert Lines(text) + [] == Lines(text);
    }
  }

  /** `formatted += f"\n\n{description}\n"` */
  function WithDescription(text: string, description: string): string {
    AddLine(AddLine(AddLine(text, ""), description), "")
  }

  /** The description comes after one blank line, keeps its own lines, and is
      followed by one final empty line. */
  lemma WithDescriptionLines(text: string, description: string)
    ensures Lines(WithDescription(text, description)) == Lines(text) + [""] + Lines(description) + [""]
  {
    AddLineLines(text, "");
    AddLineLines(AddLine(text, ""), description);
    AddLineLines(AddLine(AddLine(text, ""), description), "");
  }

  /** `f"\nTitle: {title}\nLink: {link}"`, where every display starts. */
  function TitleAndLink(title: string, link: string): string {
    AddLine(AddLine("", "Title: " + title), "Link: " + link)
  }

  lemma TitleAndLinkLines(title: string, link: string)
    requires SingleLine(title) && SingleLine(link)
    ensures Lines(TitleAndLink(title, link)) == ["", "Title: " + title, "Link: " + link]
  {
    LinesOfAddLine("", "Title: " + title);
    LinesOfAddLine(AddLine("", "Title: " + title), "Link: " + link);
  }

  /** The same text as the f-string spells it. */
  lemma TitleAndLinkText(title: string, link: string)
    ensures TitleAndLink(title, link) == "\nTitle: " + title + "\nLink: " + link
  {
    assert "\nTitle: " == "\n" + "Title: ";
    assert "\nLink: " == "\n" + "Link: ";
  }

  lemma WithDescriptionText(text: string, description: string)
    ensures WithDescription(text, description) == text + "\n\n" + description + "\n"
  {
    assert "\n\n" == "\n" + "" + "\n";
  }

  /** An optional field as the f-string spells it. */
  lemma WithFieldText(text: string, caption: string, value: string)
    ensures WithField(text, caption, value) == text + (if value != "" then "\n" + caption + value else "")
  {
  }

  /** The Categories line as the f-string spells it. */
  lemma WithCategoriesText(text: string, categories: seq<string>)
    ensures WithCategories(text, categories)
            == text + (if categories != [] then "\nCategories: " + Join(categories, ", ") else "")
  {
    assert "\nCategories: " == "\n" + "Categories: ";
  }

  /** `formatted += f"\nPublished: {pub_date}"` */
  lemma PublishedText(text: string, pubDate: string)
    ensures AddLine(text, "Published: " + pubDate) == text + "\nPublished: " + pubDate
  {
    assert "\nPublished: " == "\n" + "Published: ";
  }
}
