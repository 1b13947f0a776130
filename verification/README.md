# News feed readers: a Dafny model

A model of the news tools of a small MCP server. Five tools each fetch a
feed, normalise the XML into story records and format them as text:
Hacker News, the Wall Street Journal, TechCrunch, Wired and AI News. The
model covers four parts:

- the **normalisers**: the `parse_*_rss` functions, their `get_element_text`
  helpers and the WSJ `extract_image_url`, over an immutable element tree;
- the **AI Twitter recap extractor** (`extract_twitter_recap`): each of its
  regular expressions is written out as a hand-coded scan;
- the **story formatters** (`format_*_story`), with their line structure
  proved;
- the **tool pipeline** of `app.py`:
  - stop when the fetched string begins with "Error";
  - stop at a parse-error record and return its bare message (every tool
    except Hacker News);
  - keep `stories[: min(count, len(stories))]`;
  - show "No stories found." when nothing is kept;
  - otherwise join the displays with `"\n---\n"`;
  - AI News formats only the first story;
  - the `add` tool.

Modules, in dependency order:

| file | module | what |
|---|---|---|
| text.dfy | Text | `Option`, `str.find`, `sep.join` |
| lines.dfy | TextLines | `split("\n")`, `AddLine` |
| whitespace.dfy | Whitespace | `str.isspace`, `str.strip` |
| xml.dfy | Xml | `Element`, `Document` (the outcome of `ET.fromstring`), `find` / `findall` paths |
| rss.dfy | Rss | defaulted text lookups, non-empty texts, the parse-failure messages |
| seqs.dfy | Seqs | list comprehension, `xs[:k]` with Python slice semantics, truncation |
| recap.dfy | TwitterRecap | `extract_twitter_recap` |
| display.dfy | Display | the f-string building blocks shared by the formatters |
| hackernews.dfy, wsj.dfy, techcrunch.dfy, wired.dfy, ainews.dfy | one per source | record, parser, formatter |
| fetch.dfy | Fetch | the strings a fetch returns and the "Error" sentinel |
| tools.dfy | Tools | the five tools and `add` |

A few choices shape the model:

- **Parsing.** `ET.fromstring` is not modelled: the tools take the parser
  as a parameter `xml: string -> Document`. A `Document` is a parsed tree,
  an `ET.ParseError`, or any other exception.
- **Entity decoding.** `html.unescape` is likewise a parameter, `unescape`.
- **Element text.** An element's text is `Option<string>`. The Hacker News
  and AI News readers store a present element's text as is, so their
  fields are `Option<string>`. The formatters show `None` as "None", as an
  f-string does.
- **Duplicate files.** `custom-server/src/custom_server/ainews.py` and
  `src/custom_server/ainews.py` are identical, and so are the two copies of
  `app.py`. The table cites the `custom-server` copies.

Some behaviour of the code is easy to miss, and the model follows the code
in each case:

- **The fetch sentinel.** The tools check only `startswith("Error")`. An
  HTTP failure ("HTTP Error fetching RSS: …") and a timeout ("Timeout
  fetching RSS from …") are therefore not recognised. Their strings go to
  the XML parser (`Tools.HttpFailureReachesParser`, `Fetch.SentinelOf`).
- **Hacker News parse failures.** The Hacker News tool has no parse-error
  check. A failed parse is shown as a story made of placeholders, and the
  error message is lost (`Tools.FailedParseShown`).
- **The recap section's end.** The pattern `(?:<h1>|$)` can also end the
  section just before a final newline: without MULTILINE, `$` matches there
  too.
- **Recap titles.** The title split `^(.*?):` needs the colon to come
  before any newline.

## Model

| member | source | states |
|---|---|---|
| Whitespace.Strip | custom-server/src/custom_server/ainews.py:67 | `strip()` removes exactly the leading and trailing whitespace: the result is a slice of the input that neither starts nor ends with whitespace |
| Whitespace.IsSpace | custom-server/src/custom_server/ainews.py:67 | the character set `str.isspace` accepts, which `strip()` removes: the ASCII whitespace `\t`..`\r` and space, the separators U+001C..U+001F, U+0085, U+00A0 and the Unicode space, line and paragraph separators |
| Whitespace.StripIgnoresPadding | custom-server/src/custom_server/ainews.py:72-73 | any amount of whitespace around a text does not change its stripped form |
| Whitespace.StripIdempotent | custom-server/src/custom_server/ainews.py:72 | stripping the stripped bullet again (title and description are stripped slices of a stripped text) changes nothing |
| Text.IndexFrom | custom-server/src/custom_server/ainews.py:64 | the scan the regular expressions make: the first occurrence at or after the start, or none exactly when there is none |
| Text.Join | custom-server/src/custom_server/app.py:40 | `sep.join`: a single element is itself; the length is the elements' total plus one separator between each neighbouring pair |
| Text.JoinAppend | custom-server/src/custom_server/app.py:40 | appending a part to a non-empty list adds one separator and then that part at the end of the join; with the one-element case this places every part in order with one separator between neighbours |
| Text.JoinAvoids | custom-server/src/custom_server/techcrunch.py:147 | a character in neither the parts nor the separator is not in the join (a category list stays on one line) |
| TextLines.LinesOfAddLine | custom-server/src/custom_server/wsj.py:160 | each `formatted += f"\n…"` adds exactly one last line |
| Xml.WithTag | custom-server/src/custom_server/wsj.py:59 | `findall` keeps the elements with the tag and no others |
| Xml.WithTagAppend | custom-server/src/custom_server/wsj.py:59 | `findall` over two sequences side by side is the first's matches followed by the second's, so document order is kept |
| Xml.WithTagSingle | custom-server/src/custom_server/wsj.py:59 | one element is kept exactly when it has the tag |
| Xml.FirstWithTag | custom-server/src/custom_server/wsj.py:53 | `find` is the first element with the tag, and is none exactly when no element has it |
| Xml.FindChild | custom-server/src/custom_server/wsj.py:101 | `find(tag)` is a direct child with the tag, and none exactly when no direct child has it |
| Xml.FindIsFirst | custom-server/src/custom_server/wsj.py:101-112 | each `find` is the first element, in document order, among those its path searches that has the tag |
| Xml.FindAllChildren | custom-server/src/custom_server/wsj.py:59 | `findall(tag)` holds every direct child with the tag and nothing else |
| Xml.FindDescendant | custom-server/src/custom_server/wsj.py:107 | `find(".//" + tag)` is an element below with the tag, and none exactly when no element below has it |
| Xml.FindAllDescendants | custom-server/src/custom_server/wsj.py:74 | `findall(".//" + tag)` holds every element below with the tag and nothing else |
| Xml.FindDeep | custom-server/src/custom_server/wsj.py:110 | the wildcard lookup is an element at least two levels below with the tag, and none exactly when there is none |
| Xml.FirstIsHeadOfAll | custom-server/src/custom_server/ainews.py:100-104 | the first item found is the head of all items found |
| Xml.DeepIsDescendant | custom-server/src/custom_server/wsj.py:107-110 | what the `*//t` and direct-child lookups find, `.//t` also finds |
| Rss.TextOr | custom-server/src/custom_server/wsj.py:112 | the element's text when the element exists with non-empty text, the default otherwise |
| Rss.ChildText | custom-server/src/custom_server/techcrunch.py:108-111 | the default when no direct child has the tag; otherwise the first such child's text when present and non-empty, else the default |
| Rss.ChildTextIgnoresLaterChildren | custom-server/src/custom_server/techcrunch.py:108-111 | only the first direct child with the tag is read: children appended after it change nothing |
| Rss.PresentText | custom-server/src/custom_server/hackernews.py:41-50 | the default exactly when no child has the tag; otherwise the first such child's text, `None` included |
| Rss.NonEmptyTexts | custom-server/src/custom_server/wsj.py:76 | `[x.text for x in xs if x.text]`: only non-empty texts of the elements, and none exactly when every text is empty or `None` |
| Rss.NonEmptyTextsAppend | custom-server/src/custom_server/wsj.py:76 | the comprehension over two sequences side by side is the first's texts followed by the second's |
| Rss.NonEmptyTextsSingle | custom-server/src/custom_server/wsj.py:76 | one element contributes its text exactly when the text is present and non-empty |
| Rss.FailureMessage | custom-server/src/custom_server/wsj.py:92-95 | a malformed document gives "Error parsing XML: …", any other failure "Error parsing RSS: …" |
| Seqs.Map | custom-server/src/custom_server/app.py:39 | the comprehension has one result per story, each the image of the story at the same position |
| Seqs.MapAppend | custom-server/src/custom_server/app.py:39 | formatting is per story: formatting a concatenation concatenates the formats |
| Seqs.SlicePrefix | custom-server/src/custom_server/app.py:34 | `xs[:k]` is a prefix, of length `min(k, len)`, and for negative `k` `len + k` clamped at zero |
| Seqs.KeptCount | custom-server/src/custom_server/app.py:34 | the number of stories kept never exceeds the number parsed and is `min(count, n)` for a non-negative count |
| Seqs.Truncate | custom-server/src/custom_server/app.py:34 | `stories[: min(count, len(stories))]` is the first `KeptCount` stories in order |
| Seqs.TruncateIgnoresTail | custom-server/src/custom_server/app.py:34 | stories after the first `count` never reach the output |
| Seqs.TruncateMap | custom-server/src/custom_server/app.py:31-34 | truncating the parsed records equals parsing only the kept items |
| TwitterRecap.SectionEnd | custom-server/src/custom_server/ainews.py:54-56 | the lazy group stops at the first position where `(?:<h1>|$)` matches: before an `<h1>`, at the end, or before a final newline |
| TwitterRecap.Section | custom-server/src/custom_server/ainews.py:54-60 | a section exists exactly when the marker occurs; it is the text from the first marker to where the lazy group stops, and holds no `<h1>` |
| TwitterRecap.Fragments | custom-server/src/custom_server/ainews.py:64 | no bullet fragment contains `</li>` (the non-greedy match stops at the first) |
| TwitterRecap.NextPair | custom-server/src/custom_server/ainews.py:64 | the content of the first `<li>…</li>` pair never contains `</li>` (the non-greedy match stops at the first), and scanning resumes on a shorter text |
| TwitterRecap.FirstPair | custom-server/src/custom_server/ainews.py:64 | in `gap<li>f</li>rest`, with no `<li>` in the gap and no `</li>` in `f`, the first pair holds exactly `f` and scanning resumes at `rest` |
| TwitterRecap.FragmentsOfListMarkup | custom-server/src/custom_server/ainews.py:64 | bullet extraction undoes rendering a list: with any gaps and closing text free of `<li>`, the fragments of the rendered list are exactly the `f`s, in order |
| TwitterRecap.FirstOnLine | custom-server/src/custom_server/ainews.py:67 | the first `>` closing a tag on the same line, and none when a newline comes first |
| TwitterRecap.StripTags | custom-server/src/custom_server/ainews.py:67 | removing tags never lengthens the text and leaves text without `<` as it is |
| TwitterRecap.StripTagsKeepsText | custom-server/src/custom_server/ainews.py:67 | text before any tag is kept unchanged |
| TwitterRecap.StripTagsDropsTag | custom-server/src/custom_server/ainews.py:67 | a tag on one line is removed completely |
| TwitterRecap.AnchorTextSurvives | custom-server/src/custom_server/ainews.py:67 | of a link `<a href="u">text</a>` only the text survives |
| TwitterRecap.SplitTitle | custom-server/src/custom_server/ainews.py:69-76 | with a colon before any newline: the stripped text before the first colon and the stripped rest; otherwise the whole text and "" |
| TwitterRecap.HrefValue | custom-server/src/custom_server/ainews.py:79-80 | a link value is non-empty, holds no quote, and occurs in the bullet as `<a href="value"` |
| TwitterRecap.FirstHrefFrom | custom-server/src/custom_server/ainews.py:79-80 | a link is found exactly when some link starts at or after the position, and it is the value of the first one |
| TwitterRecap.FirstHref | custom-server/src/custom_server/ainews.py:79-80 | "" exactly when the bullet has no link; otherwise the quote-free value of the first `<a href="…"` link |
| TwitterRecap.ItemOf | custom-server/src/custom_server/ainews.py:66-82 | title and description come from the tag-stripped, stripped bullet, split at the first colon; the link is "" exactly when the raw bullet has none, else the value of its first link |
| TwitterRecap.RecapOf | custom-server/src/custom_server/ainews.py:53-84 | no items without the marker; otherwise one item per bullet fragment of the section |
| TwitterRecap.ExtractTwitterRecap | custom-server/src/custom_server/ainews.py:40-58 | decoded content without the marker gives no items |
| TwitterRecap.LaterSectionsIgnored | custom-server/src/custom_server/ainews.py:54-56 | nothing after the heading that closes the recap section affects the section or the items |
| Display.TitleAndLinkLines | custom-server/src/custom_server/wsj.py:155-157 | every display opens with a blank line, then Title and Link |
| Display.Show | custom-server/src/custom_server/ainews.py:167-172 | an f-string shows a present text as itself; the result is "None" exactly for a missing text or the text "None" |
| Display.TitleAndLinkText | custom-server/src/custom_server/wsj.py:155-157 | the opening as the f-string spells it |
| Display.WithFieldLines | custom-server/src/custom_server/wsj.py:159-160 | an optional field adds one line exactly when it is non-empty |
| Display.WithFieldText | src/custom_server/wired.py:146-150 | an optional field as the f-string spells it, newline and caption included, absent when empty |
| Display.WithCategoriesLines | custom-server/src/custom_server/techcrunch.py:146-147 | the categories add one line exactly when there are some |
| Display.WithCategoriesText | src/custom_server/wired.py:154-155 | the Categories line as the f-string spells it, absent when there are none |
| Display.WithDescriptionLines | custom-server/src/custom_server/wsj.py:162-166 | the description follows one blank line, keeps its own lines, and ends with a newline |
| Display.WithDescriptionText | custom-server/src/custom_server/techcrunch.py:149 | the closing description as the f-string spells it |
| Display.PublishedText | custom-server/src/custom_server/techcrunch.py:144 | the Published line as the f-string spells it |
| HackerNews.StoryOf | custom-server/src/custom_server/hackernews.py:40-52 | each field is the text of a present child, `None` included, or its default when the child is absent |
| HackerNews.ParseHn | custom-server/src/custom_server/hackernews.py:32-57 | one story per `item` anywhere in the document, in order; any failure is the single "Error parsing RSS: …" record |
| HackerNews.EveryItemRead | custom-server/src/custom_server/hackernews.py:37 | an item directly under the root, with no channel, is read too |
| HackerNews.FormatStory | custom-server/src/custom_server/hackernews.py:60-68 | Title, Link and Published between newlines; an error record shows the placeholders |
| HackerNews.ShownTitle | custom-server/src/custom_server/hackernews.py:61 | `story.get("title", "Unknown")`: a story's own title, `None` shown as "None"; "Unknown" for an error record, which has no title key |
| HackerNews.ShownLink | custom-server/src/custom_server/hackernews.py:62 | `story.get("link", "No link")`: a story's own link, `None` shown as "None"; "No link" for an error record |
| HackerNews.ShownPubDate | custom-server/src/custom_server/hackernews.py:63 | `story.get("pubDate", "Unknown")`: a story's own date, `None` shown as "None"; "Unknown" for an error record |
| HackerNews.FormatStoryLines | custom-server/src/custom_server/hackernews.py:62-66 | the display is exactly five lines |
| HackerNews.DescriptionNeverShown | custom-server/src/custom_server/hackernews.py:60-66 | the description does not affect the display |
| HackerNews.ErrorMessageNeverShown | custom-server/src/custom_server/hackernews.py:62-66 | every error record displays the same, with "Unknown", "No link", "Unknown" |
| Wsj.GetElementText | custom-server/src/custom_server/wsj.py:98-112 | the direct child first; only without one, the first Dublin Core creator below (for "creator") or the first element at depth two or more |
| Wsj.GetElementTextExtendsChildText | custom-server/src/custom_server/wsj.py:101-112 | the fallbacks only add: a text the direct lookup finds is returned unchanged |
| Wsj.UrlOf | custom-server/src/custom_server/wsj.py:119 | a url exactly when the element exists and has the attribute |
| Wsj.ImageUrl | custom-server/src/custom_server/wsj.py:115-130 | media content's url first, then the thumbnail's, then a direct enclosure's, else "" |
| Wsj.ContentUrlWins | custom-server/src/custom_server/wsj.py:118-120 | a media:content url wins: thumbnails, enclosures or other elements appended to the item never change the image |
| Wsj.Authors | custom-server/src/custom_server/wsj.py:74-78 | every non-empty creator below the item joined with ", ", and "" exactly when there is none |
| Wsj.ArticleOf | custom-server/src/custom_server/wsj.py:61-89 | every text field is this reader's lookup of its own tag with its own default, title and description never empty; authors and image come from the item itself |
| Wsj.ParseWsj | custom-server/src/custom_server/wsj.py:40-95 | the single error record for a failed parse or a missing channel; otherwise one article per direct item of the channel, in order |
| Wsj.FormatArticle | custom-server/src/custom_server/wsj.py:143-145 | an error record shows "ERROR: " and its message |
| Wsj.FormatArticleLines | custom-server/src/custom_server/wsj.py:148-168 | line by line: blank, Title, Link, Author only when present, Published, blank, the description's lines, and an empty last line |
| Wsj.FormatArticleText | custom-server/src/custom_server/wsj.py:155-166 | the article display is the text the f-strings spell |
| Wired.AttrOr | src/custom_server/wired.py:96-97 | an attribute's value, or "" when it is missing |
| Wired.ThumbnailImage | src/custom_server/wired.py:92-101 | url, width (or "") and height (or "") of the first thumbnail below the item when that one has a url; otherwise all three "" |
| Wired.ArticleOf | src/custom_server/wired.py:61-103 | each field from its own lookup: direct-child texts, first creator and subject below, non-empty categories, thumbnail image |
| Wired.ImageOnlyFromThumbnail | src/custom_server/wired.py:92-101 | elements without a thumbnail, appended to an item, do not change its image |
| Wired.ParseWired | src/custom_server/wired.py:40-109 | the single error record for a failed parse or a missing channel; otherwise one article per direct item of the channel |
| Wired.FormatArticle | src/custom_server/wired.py:128-130 | an error record shows "ERROR: " and its message |
| Wired.FormatArticleText | src/custom_server/wired.py:141-159 | the article display is the text the f-strings spell, with Author, Subject and Categories only when present |
| Wired.FormatArticleLines | src/custom_server/wired.py:141-159 | line by line: blank, Title, Link, the optional lines, Published, Categories only when present, blank, the description's lines, an empty last line |
| TechCrunch.Guid | custom-server/src/custom_server/techcrunch.py:81-90 | without a guid: "" and "false"; with one: its text or "" and its `isPermaLink`, or "false" |
| TechCrunch.AppendedChildrenKeepFirst | custom-server/src/custom_server/techcrunch.py:68-90 | children appended to an item leave the GUID, its flag and the title as they were when the item already has them |
| TechCrunch.AppendedCategories | custom-server/src/custom_server/techcrunch.py:92-97 | children appended to an item add their non-empty categories after the existing ones, in order |
| TechCrunch.ArticleOf | custom-server/src/custom_server/techcrunch.py:64-99 | each field from its own lookup of the item |
| TechCrunch.ParseTc | custom-server/src/custom_server/techcrunch.py:43-105 | the single error record for a failed parse or a missing channel; otherwise one article per direct item of the channel |
| TechCrunch.FormatArticle | custom-server/src/custom_server/techcrunch.py:124-126 | an error record shows "ERROR: " and its message |
| TechCrunch.FormatArticleText | custom-server/src/custom_server/techcrunch.py:136-151 | the article display is the text the f-strings spell |
| TechCrunch.FormatArticleLines | custom-server/src/custom_server/techcrunch.py:136-151 | line by line, with Author and Categories lines only when present |
| AiNews.StoryOf | custom-server/src/custom_server/ainews.py:104-135 | fields from present children; the recap is extracted only from non-empty encoded content; categories are non-empty |
| AiNews.ParseAinews | custom-server/src/custom_server/ainews.py:87-143 | at most one story; none exactly when the document has no item; otherwise the story of the first item anywhere in it |
| AiNews.LaterItemsIgnored | custom-server/src/custom_server/ainews.py:100-104 | elements appended after the first item do not change the result |
| AiNews.RecapLines | custom-server/src/custom_server/ainews.py:178-179 | four lines per recap item |
| AiNews.RecapLinesAt | custom-server/src/custom_server/ainews.py:178-179 | the `i`-th bullet's Title, Link, Description and blank line are lines `4i` to `4i+3`, in bullet order |
| AiNews.RecapTextLines | custom-server/src/custom_server/ainews.py:178-179 | each recap item shows as Title, Link, Description and a blank line |
| AiNews.WithRecapLines | custom-server/src/custom_server/ainews.py:175-179 | the recap block is added only when there are items, after two blank lines |
| AiNews.FormatStory | custom-server/src/custom_server/ainews.py:156-158 | an error record shows "ERROR: " and its message |
| AiNews.StoryHeadLines | custom-server/src/custom_server/ainews.py:167-172 | the fixed head: blank, Title, Link, Description, Published |
| AiNews.ItemTextIs | custom-server/src/custom_server/ainews.py:179 | a recap bullet is the text its f-string spells |
| AiNews.StoryHeadText | custom-server/src/custom_server/ainews.py:167-172 | the fixed head is the text its f-string spells |
| AiNews.TailText | custom-server/src/custom_server/ainews.py:174-186 | after the head, "\n\n" and the bullets only with a recap, then the Categories line only with categories |
| AiNews.FormatStoryText | custom-server/src/custom_server/ainews.py:160-186 | the story display as the formatter spells it: head, then "\n\n" and the bullets only with a recap, then Categories only with categories |
| AiNews.FormatStoryLines | custom-server/src/custom_server/ainews.py:160-186 | line by line: the head, the recap block, a blank line, and Categories only when there are some |
| Fetch.Fetched | custom-server/src/custom_server/wsj.py:28-37 | the string a fetch returns: the body verbatim, "HTTP Error fetching RSS: " and the description for an HTTP failure (timeouts included, since a timeout is an HTTP error and is caught first), "Error fetching RSS: " and the description for any other exception |
| Fetch.IsFetchError | custom-server/src/custom_server/app.py:28 | `rss_content.startswith("Error")`: the string begins with "Error" |
| Fetch.SentinelOf | custom-server/src/custom_server/wsj.py:28-37 | a fetch string is treated as a failure exactly for the catch-all exception or a body beginning with "Error", never for an HTTP failure |
| Tools.RenderIgnoresTail | custom-server/src/custom_server/app.py:33-40 | stories after the first `count` do not change the output |
| Tools.RenderLength | custom-server/src/custom_server/app.py:39-40 | k kept stories show as k displays and k - 1 separators |
| Tools.Shown | custom-server/src/custom_server/app.py:36-40 | no stories show "No stories found."; one shows its display alone; more show the first display, the rule line, then the rest |
| Tools.Render | custom-server/src/custom_server/app.py:33-40 | the fixed message when the slice keeps nothing, otherwise the displays of the kept prefix joined by rule lines; a count reaching the number of stories shows every one |
| Tools.GetHackernewsStories | custom-server/src/custom_server/app.py:18-40 | a fetch failure is returned verbatim; otherwise the kept items are formatted and joined, "No stories found." when none is kept; a failed parse is one placeholder story |
| Tools.FailedParseShown | custom-server/src/custom_server/app.py:31-40 | a failed Hacker News parse shows placeholders for a positive count and "No stories found." otherwise |
| Tools.GetWsjStories | custom-server/src/custom_server/app.py:44-71 | a fetch failure verbatim; a parse failure or missing channel as its bare message; otherwise the first kept items of the channel formatted and joined |
| Tools.GetTechcrunchStories | custom-server/src/custom_server/app.py:75-102 | as the WSJ tool, with the TechCrunch reader |
| Tools.GetWiredStories | custom-server/src/custom_server/app.py:131-158 | as the WSJ tool, with the Wired reader |
| Tools.GetAinewsLatest | custom-server/src/custom_server/app.py:106-127 | a fetch failure verbatim; a parse failure as its bare message; "No stories found." exactly when the document has no item; else the first item's display |
| Tools.Add | custom-server/src/custom_server/app.py:163-165 | the sum, from which either operand is recovered by subtracting the other |
| Tools.FetchFailureReturnedVerbatim | custom-server/src/custom_server/app.py:28-29 | the catch-all fetch error is every tool's result, whatever the parser |
| Tools.HttpFailureReachesParser | custom-server/src/custom_server/app.py:55-58 | an HTTP failure string is parsed; when the parser rejects it the tools report the XML error (Hacker News a placeholder story), not the HTTP error |

## Left out

- Fetching: the HTTP request, user agent, timeout value and feed URLs are
  not modelled. A tool takes the fetched string as input, and
  `Fetch.Outcome` names the three strings a fetch can return.
- The timeout branch of the fetch functions is not modelled: timeouts are
  HTTP errors in httpx, so the earlier HTTP-error branch always takes them.
- `ET.fromstring` is a parameter (`xml`) returning a `Document`. An
  element's tail text and its namespace prefixes are not modelled: tags
  carry their namespace URI in braces, as after parsing.
- `ET.register_namespace` only affects serialisation, which the readers
  never do.
- `html.unescape` is a parameter (`unescape`), not modelled.
- Regular expressions in general: each pattern of the recap extractor is
  modelled as the scan it performs on this input, not through a regex
  engine.
- The FastMCP and FastAPI wiring is not modelled, and neither are the
  greeting resource, the info and test endpoints or the static index page.
  Async scheduling is left out too.
- Display.WithFieldLines, Display.TitleAndLinkLines and
  Display.WithCategoriesLines: stated only for single-line fields, because
  a field with a newline adds more lines.
- HackerNews.FormatStoryLines: stated only for single-line shown fields,
  for the same reason.
- Wsj.FormatArticleLines, Wired.FormatArticleLines and
  TechCrunch.FormatArticleLines: stated only for single-line fields, for
  the same reason. The exact text for every input is
  `FormatArticleText`.
- AiNews.FormatStoryLines: stated only for single-line fields, recap items
  and categories. The exact text for every input is
  `AiNews.FormatStoryText`.
- AiNews.FormatStory and the article `FormatArticle` functions: their own
  contracts state only the error case. The story case is stated by the
  `…Lines` and `…Text` lemmas.
- TwitterRecap.ExtractTwitterRecap: relates the result to the decoded
  content only through `RecapOf`, since `unescape` is unknown.
- Tools.GetHackernewsStories, Tools.GetWsjStories,
  Tools.GetTechcrunchStories and Tools.GetWiredStories: "No stories found."
  is proved for the case where nothing is kept. That a non-empty join never
  equals that text is not proved.
