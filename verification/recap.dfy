/** The AI-news "Twitter recap" extractor: a fixed sequence of scans over the
    HTML body of a post. Each scan below performs one regular expression of
    `extract_twitter_recap`:
      section   `<h1>AI Twitter Recap</h1>(.*?)(?:<h1>|$)` with DOTALL
      bullets   `<li>(.*?)</li>` with DOTALL, all non-overlapping matches
      tags      `<.*?>` replaced by "" (no DOTALL: a tag never spans a newline)
      title     `^(.*?):` (no DOTALL: the colon must come before any newline)
      link      `<a href="([^"]+)"`, first match */
module TwitterRecap {
  import opened Text
  import opened Whitespace
  import opened Seqs

  const MARKER := "<h1>AI Twitter Recap</h1>"
  const HEADING := "<h1>"
  const ITEM_OPEN := "<li>"
  const ITEM_CLOSE := "</li>"
  const HREF_OPEN := "<a href=\""

  /** One bullet of the recap. */
  datatype RecapItem = RecapItem(title: string, description: string, link: string)

  // ---------------------------------------------------------------------
  // Section
  // ---------------------------------------------------------------------

  /** Where the alternation `(?:<h1>|$)` can match in `c`: before a
      heading, at the very end, or — `$` without MULTILINE — just before a
      final newline. */
  predicate EndsSection(c: string, e: nat) {
    OccursAt(c, HEADING, e) || e == |c| || (e == |c| - 1 && c[e] == '\n')
  }

  /** Where the lazy `(.*?)(?:<h1>|$)` stops: the first position at or after
      `start` at which the alternation matches, so the section ends at the
      next heading, else before a final newline, else at the end. */
  function SectionEnd(c: string, start: nat): (e: nat)
    requires start <= |c|
    ensures start <= e <= |c|
    ensures EndsSection(c, e)
    ensures forall j :: start <= j < e ==> !EndsSection(c, j)
    ensures forall j :: start <= j < e ==> !OccursAt(c, HEADING, j)
  {
    match IndexFrom(c, HEADING, start)
    case Some(k) => k
    case None => if start < |c| && c[|c| - 1] == '\n' then |c| - 1 else |c|
  }

  /** The text between the first recap marker and the place the lazy
      section pattern stops after it; `None` when the marker does not
      occur. */
  function Section(c: string): (r: Option<string>)
    ensures r.None? <==> !Contains(c, MARKER)
    ensures r.Some? ==> Contains(c, MARKER + r.value)
    ensures r.Some? ==> forall j :: !OccursAt(r.value, HEADING, j)
    ensures r.Some? ==>
              exists m :: OccursAt(c, MARKER, m)
                       && (forall j :: 0 <= j < m ==> !OccursAt(c, MARKER, j))
                       && r.value == c[m + |MARKER|..SectionEnd(c, m + |MARKER|)]
  {
    match IndexFrom(c, MARKER, 0)
    case None => None
    case Some(m) =>
      SectionAt(c, m);
      Some(c[m + |MARKER|..SectionEnd(c, m + |MARKER|)])
  }

  /** The section read after the first marker follows that marker and
      holds no heading. */
  lemma SectionAt(c: string, m: nat)
    requires IndexFrom(c, MARKER, 0) == Some(m)
    ensures m + |MARKER| <= |c|
    ensures var sec := c[m + |MARKER|..SectionEnd(c, m + |MARKER|)];
            Contains(c, MARKER + sec) && forall j :: !OccursAt(sec, HEADING, j)
  {
    var start := m + |MARKER|;
    FollowsOccurrence(c, MARKER, m, SectionEnd(c, start));
    NoHeadingBefore(c, start);
  }

  /** No heading lies inside the text before the section's end. */
  lemma NoHeadingBefore(c: string, start: nat)
    requires start <= |c|
    ensures forall j :: !OccursAt(c[start..SectionEnd(c, start)], HEADING, j)
  {
    var e := SectionEnd(c, start);
    forall j ensures !OccursAt(c[start..e], HEADING, j) {
      OccursInSlice(c, start, e, HEADING, j);
    }
  }

  /** The pattern found at `m`, followed by the text after it, occurs. */
  lemma FollowsOccurrence(c: string, pat: string, m: nat, e: nat)
    requires OccursAt(c, pat, m) && m + |pat| <= e <= |c|
    ensures Contains(c, pat + c[m + |pat|..e])
  {
    var sec := c[m + |pat|..e];
    assert c[m..e] == pat + sec;
    assert OccursAt(c, pat + sec, m);
  }

  /** An occurrence inside the slice `s[a..b]` is an occurrence in `s`. */
  lemma OccursInSlice(s: string, a: nat, b: nat, pat: string, j: int)
    requires a <= b <= |s|
    ensures OccursAt(s[a..b], pat, j) ==> OccursAt(s, pat, a + j) && a + j + |pat| <= b
  {
    if OccursAt(s[a..b], pat, j) {
      var x := s[a..b][j..j + |pat|];
      assert forall t :: 0 <= t < |pat| ==> x[t] == s[a + j + t];
      assert x == s[a + j..a + j + |pat|];
    }
  }

  // ---------------------------------------------------------------------
  // Bullets
  // ---------------------------------------------------------------------

  /** The first `<li>…</li>` pair of `s`: its content, which closes at the
      first `</li>` after the `<li>`, and the text after the pair. */
  function NextPair(s: string): (r: Option<(string, string)>)
    ensures r.Some? ==> !Contains(r.value.0, ITEM_CLOSE) && |r.value.1| < |s|
  {
    match IndexFrom(s, ITEM_OPEN, 0)
    case None => None
    case Some(i) =>
      match IndexFrom(s, ITEM_CLOSE, i + |ITEM_OPEN|)
      case None => None
      case Some(j) =>
        var f := s[i + |ITEM_OPEN|..j];
        forall k ensures !OccursAt(f, ITEM_CLOSE, k) {
          OccursInSlice(s, i + |ITEM_OPEN|, j, ITEM_CLOSE, k);
        }
        Some((f, s[j + |ITEM_CLOSE|..]))
  }

  /** The contents of the non-overlapping `<li>…</li>` pairs of `s`, left to
      right. */
  function Fragments(s: string): (r: seq<string>)
    ensures forall i :: 0 <= i < |r| ==> !Contains(r[i], ITEM_CLOSE)
    decreases |s|
  {
    match NextPair(s)
    case None => []
    case Some((f, rest)) => [f] + Fragments(rest)
  }

  /** A list rendered as HTML: each fragment wrapped in `<li>…</li>` and
      preceded by its own gap (white space, a list opening tag, any text
      without `<li>`), the whole followed by `tail` (a list closing tag,
      later paragraphs). */
  function ListMarkup(gaps: seq<string>, fs: seq<string>, tail: string): string
    requires |gaps| == |fs|
  {
    if fs == [] then tail
    else gaps[0] + ITEM_OPEN + fs[0] + ITEM_CLOSE + ListMarkup(gaps[1..], fs[1..], tail)
  }

  /** `IndexFrom` returns the occurrence that has no earlier one. */
  lemma IndexFromIs(s: string, pat: string, from: nat, k: nat)
    requires from <= k && OccursAt(s, pat, k)
    requires forall j :: from <= j < k ==> !OccursAt(s, pat, j)
    ensures IndexFrom(s, pat, from) == Some(k)
  {
  }

  /** The first `<li>` after a gap without `<li>` is the one ending it: an
      earlier one would lie inside the gap or overlap this one. */
  lemma FirstOpen(gap: string, f: string, rest: string)
    requires !Contains(gap, ITEM_OPEN)
    ensures IndexFrom(gap + ITEM_OPEN + f + ITEM_CLOSE + rest, ITEM_OPEN, 0) == Some(|gap|)
  {
    var s := gap + ITEM_OPEN + f + ITEM_CLOSE + rest;
    assert s[|gap|..|gap| + |ITEM_OPEN|] == ITEM_OPEN;
    forall k | 0 <= k < |gap| ensures !OccursAt(s, ITEM_OPEN, k) {
      if OccursAt(s, ITEM_OPEN, k) {
        NoSelfOverlap(s, ITEM_OPEN, k, |gap|);
        assert s[k..k + |ITEM_OPEN|] == gap[k..k + |ITEM_OPEN|];
        assert OccursAt(gap, ITEM_OPEN, k);
        assert false;
      }
    }
    IndexFromIs(s, ITEM_OPEN, 0, |gap|);
  }

  /** No `</li>` starts inside a fragment without `</li>` that is followed
      by one. */
  lemma NoCloseInside(pre: string, f: string, rest: string, k: int)
    requires !Contains(f, ITEM_CLOSE)
    requires |pre| <= k < |pre| + |f|
    ensures !OccursAt(pre + f + ITEM_CLOSE + rest, ITEM_CLOSE, k)
  {
    var s := pre + f + ITEM_CLOSE + rest;
    var j := |pre| + |f|;
    if OccursAt(s, ITEM_CLOSE, k) {
      if k + |ITEM_CLOSE| <= j {
        assert s[k..k + |ITEM_CLOSE|] == f[k - |pre|..k - |pre| + |ITEM_CLOSE|];
        assert OccursAt(f, ITEM_CLOSE, k - |pre|);
        assert false;
      } else {
        assert s[j..j + |ITEM_CLOSE|] == ITEM_CLOSE;
        NoSelfOverlap(s, ITEM_CLOSE, k, j);
        assert false;
      }
    }
  }

  /** After `pre`, the first `</li>` is the one right behind a fragment
      without `</li>`. */
  lemma FirstClose(pre: string, f: string, rest: string)
    requires !Contains(f, ITEM_CLOSE)
    ensures IndexFrom(pre + f + ITEM_CLOSE + rest, ITEM_CLOSE, |pre|) == Some(|pre| + |f|)
  {
    var s := pre + f + ITEM_CLOSE + rest;
    var j := |pre| + |f|;
    assert s[j..j + |ITEM_CLOSE|] == ITEM_CLOSE;
    forall k | |pre| <= k < j ensures !OccursAt(s, ITEM_CLOSE, k) {
      NoCloseInside(pre, f, rest, k);
    }
    IndexFromIs(s, ITEM_CLOSE, |pre|, j);
  }

  /** The pieces of `pre + f + "</li>" + rest` at their offsets. */
  lemma PairSlices(pre: string, f: string, rest: string)
    ensures var s := pre + f + ITEM_CLOSE + rest;
            && s[|pre|..|pre| + |f|] == f
            && s[|pre| + |f| + |ITEM_CLOSE|..] == rest
  {
  }

  /** One `<li>` pair, found again: in `gap + "<li>" + f + "</li>" + rest`
      the first pair holds exactly `f` and scanning resumes at `rest`. */
  lemma FirstPair(gap: string, f: string, rest: string)
    requires !Contains(gap, ITEM_OPEN)
    requires !Contains(f, ITEM_CLOSE)
    ensures NextPair(gap + ITEM_OPEN + f + ITEM_CLOSE + rest) == Some((f, rest))
  {
    var pre := gap + ITEM_OPEN;
    var s := pre + f + ITEM_CLOSE + rest;
    FirstOpen(gap, f, rest);
    FirstClose(pre, f, rest);
    PairSlices(pre, f, rest);
    NextPairAt(s, |gap|, |pre| + |f|);
  }

  /** The pair the two scans locate. */
  lemma NextPairAt(s: string, i: nat, j: nat)
    requires IndexFrom(s, ITEM_OPEN, 0) == Some(i)
    requires IndexFrom(s, ITEM_CLOSE, i + |ITEM_OPEN|) == Some(j)
    ensures NextPair(s) == Some((s[i + |ITEM_OPEN|..j], s[j + |ITEM_CLOSE|..]))
  {
  }

  /** Bullet extraction undoes list rendering: the fragments of a rendered
      list are the rendered items, one per `<li>…</li>` pair, in order. */
  lemma {:induction false} FragmentsOfListMarkup(gaps: seq<string>, fs: seq<string>, tail: string)
    requires |gaps| == |fs|
    requires forall i :: 0 <= i < |gaps| ==> !Contains(gaps[i], ITEM_OPEN)
    requires forall i :: 0 <= i < |fs| ==> !Contains(fs[i], ITEM_CLOSE)
    requires !Contains(tail, ITEM_OPEN)
    ensures Fragments(ListMarkup(gaps, fs, tail)) == fs
  {
    if fs != [] {
      var rest := ListMarkup(gaps[1..], fs[1..], tail);
      var s := gaps[0] + ITEM_OPEN + fs[0] + ITEM_CLOSE + rest;
      assert ListMarkup(gaps, fs, tail) == s;
      FirstPair(gaps[0], fs[0], rest);
      FragmentsOfListMarkup(gaps[1..], fs[1..], tail);
      assert [fs[0]] + fs[1..] == fs;
    } else {
      assert IndexFrom(tail, ITEM_OPEN, 0) == None;
    }
  }

  // ---------------------------------------------------------------------
  // Tags
  // ---------------------------------------------------------------------

  /** No newline in `s[from..to]`. */
  predicate NoNewline(s: string, from: int, to: int)
    requires 0 <= from <= to <= |s|
  {
    forall i :: from <= i < to ==> s[i] != '\n'
  }

  /** The first index at or after `k` holding `c`, provided no newline comes
      first: where a non-DOTALL `.*?c` ends. */
  function FirstOnLine(s: string, c: char, k: nat): (r: Option<nat>)
    requires k <= |s|
    requires c != '\n'
    ensures r.Some? ==> k <= r.value < |s| && s[r.value] == c && NoNewline(s, k, r.value)
                        && forall i :: k <= i < r.value ==> s[i] != c
    ensures r.None? ==> forall i :: k <= i < |s| && s[i] == c ==> !NoNewline(s, k, i)
    decreases |s| - k
  {
    if k == |s| || s[k] == '\n' then None
    else if s[k] == c then Some(k)
    else FirstOnLine(s, c, k + 1)
  }

  /** `re.sub(r"<.*?>", "", s)`: every `<` that is closed by a `>` before the
      next newline starts a tag, which is removed up to that `>`; everything
      else is kept. */
  function StripTags(s: string): (r: string)
    ensures |r| <= |s|
    ensures '<' !in s ==> r == s
    decreases |s|
  {
    if s == [] then []
    else if s[0] == '<' then
      match FirstOnLine(s, '>', 1)
      case Some(j) => StripTags(s[j + 1..])
      case None => [s[0]] + StripTags(s[1..])
    else
      assert s == [s[0]] + s[1..];
      [s[0]] + StripTags(s[1..])
  }

  /** Plain text is kept as is in front of whatever follows. */
  lemma {:induction false} StripTagsKeepsText(t: string, u: string)
    requires '<' !in t
    ensures StripTags(t + u) == t + StripTags(u)
    decreases |t|
  {
    if t != [] {
      assert (t + u)[0] == t[0];
      assert (t + u)[1..] == t[1..] + u;
      StripTagsKeepsText(t[1..], u);
      assert t == [t[0]] + t[1..];
    } else {
      assert t + u == u;
    }
  }

  /** A one-line tag is removed entirely. */
  lemma StripTagsDropsTag(inner: string, u: string)
    requires '>' !in inner && '\n' !in inner
    ensures StripTags("<" + inner + ">" + u) == StripTags(u)
  {
    var s := "<" + inner + ">" + u;
    var j := |inner| + 1;
    assert s[j] == '>';
    assert forall i :: 1 <= i < j ==> s[i] == inner[i - 1];
    assert FirstOnLine(s, '>', 1) == Some(j);
    assert s[j + 1..] == u;
  }

  /** Anchor text survives tag stripping: a link written as
      `<a href="url">text</a>` leaves exactly `text`. */
  lemma AnchorTextSurvives(url: string, text: string, u: string)
    requires '>' !in url && '\n' !in url
    requires '<' !in text
    ensures StripTags("<a href=\"" + url + "\">" + text + "</a>" + u) == text + StripTags(u)
  {
    var opening := "a href=\"" + url + "\"";
    var close := "<" + "/a" + ">" + u;
    AnchorParts(url, text, u);
    StripTagsDropsTag(opening, text + close);
    StripTagsKeepsText(text, close);
    StripTagsDropsTag("/a", u);
  }

  /** An anchor's markup as two tags around its text. */
  lemma AnchorParts(url: string, text: string, u: string)
    ensures "<a href=\"" + url + "\">" + text + "</a>" + u
            == "<" + ("a href=\"" + url + "\"") + ">" + (text + ("<" + "/a" + ">" + u))
  {
    assert "<a href=\"" == "<" + "a href=\"";
    assert "\">" == "\"" + ">";
    assert "</a>" == "<" + "/a" + ">";
  }

  // ---------------------------------------------------------------------
  // Title, description, link
  // ---------------------------------------------------------------------

  /** `k` is where `^(.*?):` ends: the first colon, with no newline before it. */
  predicate TitleColon(s: string, k: int) {
    0 <= k < |s| && s[k] == ':' && forall i :: 0 <= i < k ==> s[i] != ':' && s[i] != '\n'
  }

  /** The title/description split of a cleaned bullet: with a colon before any
      newline, the stripped text before the first colon and the stripped rest;
      otherwise the whole text and an empty description. */
  function SplitTitle(clean: string): (r: (string, string))
    ensures forall k :: TitleColon(clean, k) ==> r == (Strip(clean[..k]), Strip(clean[k + 1..]))
    ensures (forall k :: !TitleColon(clean, k)) ==> r == (clean, "")
  {
    match FirstOnLine(clean, ':', 0)
    case Some(k) =>
      assert TitleColon(clean, k);
      (Strip(clean[..k]), Strip(clean[k + 1..]))
    case None => (clean, "")
  }

  /** A link value starts at `p`: the literal `<a href="` followed by at least
      one non-quote character and then a closing quote. */
  predicate HrefAt(b: string, p: int) {
    && OccursAt(b, HREF_OPEN, p)
    && p + |HREF_OPEN| < |b|
    && b[p + |HREF_OPEN|] != '"'
    && Contains(b[p + |HREF_OPEN|..], "\"")
  }

  /** The value of the link starting at `p`: up to the next quote. */
  function HrefValue(b: string, p: nat): (v: string)
    requires HrefAt(b, p)
    ensures v != [] && '"' !in v
    ensures OccursAt(b, HREF_OPEN + v + "\"", p)
    ensures Contains(b, HREF_OPEN + v + "\"")
  {
    var start := p + |HREF_OPEN|;
    var q := IndexFrom(b, "\"", start);
    assert q.Some? by {
      var k :| 0 <= k <= |b[start..]| && OccursAt(b[start..], "\"", k);
      OccursInSuffix(b, start, "\"", k);
    }
    var v := b[start..q.value];
    forall i | 0 <= i < |v| ensures v[i] != '"' {
      assert !OccursAt(b, "\"", start + i);
    }
    assert b[p..q.value + 1] == HREF_OPEN + v + "\"";
    assert OccursAt(b, HREF_OPEN + v + "\"", p);
    v
  }

  /** The least position at or after `p` at which a link value starts. */
  function FirstHrefAtFrom(b: string, p: nat): (q: nat)
    requires p <= |b|
    requires exists q :: p <= q <= |b| && HrefAt(b, q)
    ensures p <= q <= |b| && HrefAt(b, q) && forall q' :: p <= q' < q ==> !HrefAt(b, q')
    decreases |b| - p
  {
    if HrefAt(b, p) then p else FirstHrefAtFrom(b, p + 1)
  }

  /** A link start with none before it is the least one. */
  lemma FirstHrefAtIs(b: string, p: nat, q: nat)
    requires p <= q <= |b| && HrefAt(b, q)
    requires forall q' :: p <= q' < q ==> !HrefAt(b, q')
    ensures FirstHrefAtFrom(b, p) == q
  {
  }

  predicate SomeHrefFrom(b: string, p: nat) {
    exists q :: p <= q <= |b| && HrefAt(b, q)
  }

  /** Skipping positions that start no link finds the same links. */
  lemma SkipNoHref(b: string, p: nat, q: nat)
    requires p <= q < |b|
    requires forall q' :: p <= q' <= q ==> !HrefAt(b, q')
    ensures SomeHrefFrom(b, p) <==> SomeHrefFrom(b, q + 1)
    ensures SomeHrefFrom(b, p) ==> FirstHrefAtFrom(b, p) == FirstHrefAtFrom(b, q + 1)
  {
    if SomeHrefFrom(b, p) {
      var x :| p <= x <= |b| && HrefAt(b, x);
      assert q + 1 <= x;
      FirstHrefAtIs(b, p, FirstHrefAtFrom(b, q + 1));
    }
  }

  /** `re.search(r'<a href="([^"]+)"', b)`, scanning from `p`: the value of
      the first link at or after `p`, or "" when there is none. Only the
      positions of the literal `<a href="` are tried. */
  function FirstHrefFrom(b: string, p: nat): (r: string)
    requires p <= |b|
    ensures r != "" <==> SomeHrefFrom(b, p)
    ensures r != "" ==> r == HrefValue(b, FirstHrefAtFrom(b, p))
    decreases |b| - p
  {
    match IndexFrom(b, HREF_OPEN, p)
    case None =>
      assert !SomeHrefFrom(b, p);
      ""
    case Some(q) =>
      if HrefAt(b, q) then
        FirstHrefAtIs(b, p, q);
        HrefValue(b, q)
      else
        SkipNoHref(b, p, q);
        FirstHrefFrom(b, q + 1)
  }

  /** The first link of a raw bullet, or "". */
  function FirstHref(b: string): (r: string)
    ensures r == "" || ('"' !in r && Contains(b, HREF_OPEN + r + "\""))
    ensures r == "" <==> forall q :: 0 <= q <= |b| ==> !HrefAt(b, q)
    ensures r != "" ==>
              exists q :: HrefAt(b, q) && (forall p :: 0 <= p < q ==> !HrefAt(b, p)) && r == HrefValue(b, q)
  {
    var r := FirstHrefFrom(b, 0);
    if r == "" then r
    else
      var q := FirstHrefAtFrom(b, 0);
      assert HrefAt(b, q) && (forall p :: 0 <= p < q ==> !HrefAt(b, p)) && r == HrefValue(b, q);
      r
  }

  // ---------------------------------------------------------------------
  // Extraction
  // ---------------------------------------------------------------------

  /** One raw bullet as a recap item: tags stripped and the text trimmed
      before the title split; the link is read from the raw bullet. */
  function ItemOf(fragment: string): (r: RecapItem)
    ensures r.link == "" || Contains(fragment, HREF_OPEN + r.link + "\"")
    ensures r.link == "" <==> forall q :: 0 <= q <= |fragment| ==> !HrefAt(fragment, q)
    ensures r.link != "" ==>
              exists q :: HrefAt(fragment, q) && (forall p :: 0 <= p < q ==> !HrefAt(fragment, p))
                          && r.link == HrefValue(fragment, q)
    ensures var clean := Strip(StripTags(fragment));
            forall k :: TitleColon(clean, k) ==> r.title == Strip(clean[..k]) && r.description == Strip(clean[k + 1..])
    ensures var clean := Strip(StripTags(fragment));
            (forall k :: !TitleColon(clean, k)) ==> r.title == clean && r.description == ""
  {
    var clean := Strip(StripTags(fragment));
    var (title, description) := SplitTitle(clean);
    RecapItem(title, description, FirstHref(fragment))
  }

  /** `extract_twitter_recap` after entity decoding: one item per bullet of
      the recap section, in document order; no items, and no error, when the
      marker is missing. */
  function RecapOf(c: string): (r: seq<RecapItem>)
    ensures !Contains(c, MARKER) ==> r == []
    ensures Section(c).Some? ==> |r| == |Fragments(Section(c).value)|
    ensures Section(c).Some? ==> forall i :: 0 <= i < |r| ==> r[i] == ItemOf(Fragments(Section(c).value)[i])
  {
    match Section(c)
    case None => []
    case Some(sec) => Map(ItemOf, Fragments(sec))
  }

  /** `extract_twitter_recap(content)`: `html.unescape` is the caller-supplied
      `unescape`, then the scans above. */
  function ExtractTwitterRecap(unescape: string -> string, content: string): (r: seq<RecapItem>)
    ensures !Contains(unescape(content), MARKER) ==> r == []
  {
    RecapOf(unescape(content))
  }

  /** When the first occurrence of `pat` at or after `from` lies within `p`,
      no text appended to `p` changes it. */
  lemma IndexFromStable(p: string, t: string, pat: string, from: nat)
    requires IndexFrom(p, pat, from).Some?
    ensures IndexFrom(p + t, pat, from) == IndexFrom(p, pat, from)
  {
    var k := IndexFrom(p, pat, from).value;
    OccursInPrefix(p, t, pat, k);
    forall j | from <= j < k ensures !OccursAt(p + t, pat, j) {
      OccursInPrefix(p, t, pat, j);
    }
    IndexFromIs(p + t, pat, from, k);
  }

  /** Everything after the heading that closes the recap section is ignored:
      bullets in later sections never become recap items. */
  lemma LaterSectionsIgnored(pre: string, rest: string)
    requires Contains(pre, MARKER)
    ensures Section(pre + HEADING + rest) == Section(pre + HEADING)
    ensures RecapOf(pre + HEADING + rest) == RecapOf(pre + HEADING)
  {
    var p := pre + HEADING;
    var c := p + rest;
    assert IndexFrom(pre, MARKER, 0).Some?;
    IndexFromStable(pre, HEADING, MARKER, 0);
    IndexFromStable(p, rest, MARKER, 0);
    var m := IndexFrom(pre, MARKER, 0).value;
    var start := m + |MARKER|;
    assert start <= |pre|;
    assert OccursAt(p, HEADING, |pre|);
    assert IndexFrom(p, HEADING, start).Some?;
    IndexFromStable(p, rest, HEADING, start);
    var k := IndexFrom(p, HEADING, start).value;
    assert k <= |pre|;
    assert SectionEnd(c, start) == k && SectionEnd(p, start) == k;
    assert c[start..k] == p[start..k];
    SectionIs(c, m);
    SectionIs(p, m);
  }

  /** The section read after the first marker at `m`. */
  lemma SectionIs(c: string, m: nat)
    requires IndexFrom(c, MARKER, 0) == Some(m)
    ensures m + |MARKER| <= |c|
    ensures Section(c) == Some(c[m + |MARKER|..SectionEnd(c, m + |MARKER|)])
  {
  }
}
