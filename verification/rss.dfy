/** The defensive field extraction shared by the per-source normalisers:
    texts with defaults, the non-empty texts of repeated elements, and the
    error records a failed parse produces. */
module Rss {
  import opened Text
  import opened Xml

  const NO_CHANNEL_ERROR := "Invalid RSS format: No channel element found"
  const XML_ERROR_PREFIX := "Error parsing XML: "
  const RSS_ERROR_PREFIX := "Error parsing RSS: "

  /** `el.text if el is not None and el.text else default`: the text of a
      looked-up element, or the default when the element is missing or its
      text is `None` or empty. */
  function TextOr(found: Option<Element>, default: string): (r: string)
    ensures r == default || (found.Some? && found.value.text == Some(r) && r != "")
    ensures found.Some? && found.value.text.Some? && found.value.text.value != "" ==> r == found.value.text.value
    ensures r == "" ==> default == ""
  {
    if found.Some? && found.value.text.Some? && found.value.text.value != "" then found.value.text.value
    else default
  }

  /** `get_element_text` of the Wired and TechCrunch readers: the non-empty
      text of the first direct child tagged `tag`, else `default`. */
  function ChildText(e: Element, tag: string, default: string): (r: string)
    ensures r != default ==> exists i :: 0 <= i < |e.children| && e.children[i].tag == tag
                               && e.children[i].text == Some(r) && r != ""
                               && forall j :: 0 <= j < i ==> e.children[j].tag != tag
    ensures r == "" ==> default == ""
    ensures (forall i :: 0 <= i < |e.children| ==> e.children[i].tag != tag) ==> r == default
    ensures forall i :: 0 <= i < |e.children| && e.children[i].tag == tag
                        && (forall j :: 0 <= j < i ==> e.children[j].tag != tag) ==>
                          r == if e.children[i].text.Some? && e.children[i].text.value != ""
                               then e.children[i].text.value else default
  {
    TextOr(FindChild(e, tag), default)
  }

  /** Only the first direct child with the tag is read: children appended
      after it never change the text. */
  lemma ChildTextIgnoresLaterChildren(e: Element, extra: seq<Element>, tag: string, default: string)
    requires FindChild(e, tag).Some?
    ensures ChildText(e.(children := e.children + extra), tag, default) == ChildText(e, tag, default)
  {
    FirstWithTagAppend(e.children, extra, tag);
  }

  /** `item.find(tag).text if item.find(tag) is not None else default`, the
      lookup of the Hacker News and AI-news readers: a present element gives
      its text as is, `None` included; only an absent one gives the default. */
  function PresentText(e: Element, tag: string, default: string): (r: Option<string>)
    ensures (forall i :: 0 <= i < |e.children| ==> e.children[i].tag != tag) <==> r == Some(default) && FindChild(e, tag).None?
    ensures FindChild(e, tag).Some? ==> r == FindChild(e, tag).value.text
  {
    match FindChild(e, tag)
    case None => Some(default)
    case Some(c) => c.text
  }

  /** `[x.text for x in xs if x.text]`: the non-empty texts, in order. */
  function NonEmptyTexts(xs: seq<Element>): (r: seq<string>)
    ensures |r| <= |xs|
    ensures forall i :: 0 <= i < |r| ==> r[i] != "" && exists j :: 0 <= j < |xs| && xs[j].text == Some(r[i])
    ensures (forall j :: 0 <= j < |xs| ==> xs[j].text.None? || xs[j].text == Some("")) <==> r == []
  {
    if xs == [] then []
    else
      var rest := NonEmptyTexts(xs[1..]);
      assert forall j :: 1 <= j < |xs| ==> xs[j] == xs[1..][j - 1];
      if xs[0].text.Some? && xs[0].text.value != "" then [xs[0].text.value] + rest
      else rest
  }

  /** The comprehension distributes over a split of its input. */
  lemma {:induction false} NonEmptyTextsAppend(xs: seq<Element>, ys: seq<Element>)
    ensures NonEmptyTexts(xs + ys) == NonEmptyTexts(xs) + NonEmptyTexts(ys)
  {
    if xs == [] {
      assert xs + ys == ys;
    } else {
      assert (xs + ys)[1..] == xs[1..] + ys;
      NonEmptyTextsAppend(xs[1..], ys);
    }
  }

  /** One element contributes its text exactly when that text is present
      and non-empty: with the append law this pins down the comprehension,
      order and all. */
  lemma NonEmptyTextsSingle(x: Element)
    ensures NonEmptyTexts([x]) == if x.text.Some? && x.text.value != "" then [x.text.value] else []
  {
    assert [x][1..] == [];
  }

  /** The error message a failed `ET.fromstring` leaves in the single error
      record of the readers that catch `ET.ParseError` separately. */
  function FailureMessage(doc: Document): (m: string)
    requires !doc.Parsed?
    ensures doc.ParseError? ==> m == XML_ERROR_PREFIX + doc.message
    ensures doc.OtherError? ==> m == RSS_ERROR_PREFIX + doc.message
  {
    if doc.ParseError? then XML_ERROR_PREFIX + doc.message else RSS_ERROR_PREFIX + doc.message
  }
}
