/** The documentation page of one component (src/Parentmain.jsx): the docs entry looked up by
    title, the bullet formatting of paragraph text, the table of contents built from the h3
    headings, the anchor slugs its links and the scroll lookup share, and the page's own state,
    the active section and the fullscreen flag. */
module DocsPage {
  import opened Common
  import opened JsText

  // ---------------------------------------------------------------------------------------------
  // The bullet marker and splitting on it

  /** The bullet marker "\n-" (a line feed followed by a hyphen) starts at position i of s. */
  predicate MarkerAt(s: string, i: int) {
    0 <= i < |s| - 1 && s[i] == '\n' && s[i + 1] == '-'
  }

  /** content.includes("\n-") */
  predicate HasMarker(s: string) {
    exists i | 0 <= i < |s| - 1 :: MarkerAt(s, i)
  }

  /** The number of positions at which the marker starts. */
  function MarkerCount(s: string): nat {
    if |s| < 2 then 0
    else (if MarkerAt(s, 0) then 1 else 0) + MarkerCount(s[1..])
  }

  /** content.split("\n-"): the pieces between markers, scanning left to right. */
  function SplitOnMarker(s: string): (pieces: seq<string>)
    ensures |pieces| >= 1
  {
    if |s| < 2 then [s]
    else if MarkerAt(s, 0) then [""] + SplitOnMarker(s[2..])
    else
      var rest := SplitOnMarker(s[1..]);
      [[s[0]] + rest[0]] + rest[1..]
  }

  /** pieces.join("\n-"), the inverse of the split. */
  function JoinWithMarker(pieces: seq<string>): string
    requires |pieces| >= 1
  {
    if |pieces| == 1 then pieces[0] else pieces[0] + "\n-" + JoinWithMarker(pieces[1..])
  }

  lemma MarkerCons(c: char, t: string)
    requires !HasMarker(t)
    requires !(c == '\n' && t != [] && t[0] == '-')
    ensures !HasMarker([c] + t)
  {
    var s := [c] + t;
    forall i | 0 <= i < |s| - 1
      ensures !MarkerAt(s, i)
    {
      if i > 0 {
        assert s[i] == t[i - 1] && s[i + 1] == t[i];
        assert !MarkerAt(t, i - 1);
      }
    }
  }

  /** A slice of a marker-free string is marker-free. */
  lemma SliceMarkerFree(s: string, a: nat, b: nat)
    requires a <= b <= |s| && !HasMarker(s)
    ensures !HasMarker(s[a..b])
  {
    var t := s[a..b];
    forall i | 0 <= i < |t| - 1
      ensures !MarkerAt(t, i)
    {
      assert t[i] == s[a + i] && t[i + 1] == s[a + i + 1];
      assert !MarkerAt(s, a + i);
    }
  }

  /** The first piece is a prefix of the string. */
  lemma {:induction false} SplitFirstPiece(s: string)
    ensures var p := SplitOnMarker(s)[0]; |p| <= |s| && p == s[..|p|]
  {
    if |s| >= 2 && !MarkerAt(s, 0) {
      SplitFirstPiece(s[1..]);
    }
  }

  /** Joining the pieces with the marker gives back the string. */
  lemma {:induction false} SplitJoin(s: string)
    ensures JoinWithMarker(SplitOnMarker(s)) == s
  {
    if |s| >= 2 {
      if MarkerAt(s, 0) {
        SplitJoin(s[2..]);
        assert s == "\n-" + s[2..];
      } else {
        var rest := SplitOnMarker(s[1..]);
        SplitJoin(s[1..]);
        JoinConsChar(s[0], rest);
        assert s == [s[0]] + s[1..];
      }
    }
  }

  /** A character put in front of the first piece ends up in front of the joined string. */
  lemma {:induction false} JoinConsChar(c: char, rest: seq<string>)
    requires |rest| >= 1
    ensures JoinWithMarker([[c] + rest[0]] + rest[1..]) == [c] + JoinWithMarker(rest)
  {
    var ps := [[c] + rest[0]] + rest[1..];
    if |rest| > 1 {
      assert ps[0] == [c] + rest[0] && ps[1..] == rest[1..];
      var tail := JoinWithMarker(rest[1..]);
      assert JoinWithMarker(ps) == ([c] + rest[0]) + "\n-" + tail;
      assert JoinWithMarker(rest) == rest[0] + "\n-" + tail;
      assert ([c] + rest[0]) + "\n-" + tail == [c] + (rest[0] + "\n-" + tail);
    } else {
      assert ps == [[c] + rest[0]];
    }
  }

  /** No piece contains the marker. */
  lemma {:induction false} SplitPiecesMarkerFree(s: string)
    ensures forall k :: 0 <= k < |SplitOnMarker(s)| ==> !HasMarker(SplitOnMarker(s)[k])
  {
    var pieces := SplitOnMarker(s);
    if |s| < 2 {
      assert !MarkerAt(s, 0);
    } else if MarkerAt(s, 0) {
      SplitPiecesMarkerFree(s[2..]);
    } else {
      var rest := SplitOnMarker(s[1..]);
      SplitPiecesMarkerFree(s[1..]);
      SplitFirstPiece(s[1..]);
      if rest[0] != [] {
        assert rest[0][0] == s[1];
      }
      MarkerCons(s[0], rest[0]);
      assert forall k :: 1 <= k < |pieces| ==> pieces[k] == rest[k];
    }
  }

  /** There is one piece more than there are markers. */
  lemma {:induction false} SplitCount(s: string)
    ensures |SplitOnMarker(s)| == MarkerCount(s) + 1
  {
    if |s| >= 2 {
      if MarkerAt(s, 0) {
        SplitCount(s[2..]);
        assert s[1..][1..] == s[2..];
      } else {
        SplitCount(s[1..]);
      }
    }
  }

  /** A string contains the marker exactly when the marker count is positive. */
  lemma {:induction false} MarkerCountPositive(s: string)
    ensures HasMarker(s) <==> MarkerCount(s) > 0
  {
    if |s| >= 2 {
      MarkerCountPositive(s[1..]);
      if HasMarker(s) && !MarkerAt(s, 0) {
        var i :| 0 <= i < |s| - 1 && MarkerAt(s, i);
        assert MarkerAt(s[1..], i - 1);
      }
      if HasMarker(s[1..]) {
        var i :| 0 <= i < |s| - 2 && MarkerAt(s[1..], i);
        assert MarkerAt(s, i + 1);
      }
    } else {
      assert !MarkerAt(s, 0);
    }
  }

  lemma {:induction false} SplitMarkerFree(p: string)
    requires !HasMarker(p)
    ensures SplitOnMarker(p) == [p]
  {
    if |p| >= 2 {
      assert !MarkerAt(p, 0);
      SliceMarkerFree(p, 1, |p|);
      assert p[1..|p|] == p[1..];
      SplitMarkerFree(p[1..]);
      assert [p[0]] + p[1..] == p;
    }
  }

  lemma {:induction false} SplitAfterPiece(p: string, rest: string)
    requires !HasMarker(p)
    ensures SplitOnMarker(p + "\n-" + rest) == [p] + SplitOnMarker(rest)
  {
    var s := p + "\n-" + rest;
    if p == [] {
      assert MarkerAt(s, 0);
      assert s[2..] == rest;
    } else {
      if |p| >= 2 {
        assert !MarkerAt(p, 0);
      }
      assert !MarkerAt(s, 0);
      SliceMarkerFree(p, 1, |p|);
      assert p[1..|p|] == p[1..];
      assert s[1..] == p[1..] + "\n-" + rest;
      SplitAfterPiece(p[1..], rest);
      assert [s[0]] + p[1..] == p;
    }
  }

  /** Splitting a join of marker-free pieces gives back the pieces. */
  lemma {:induction false} JoinSplit(pieces: seq<string>)
    requires |pieces| >= 1
    requires forall k :: 0 <= k < |pieces| ==> !HasMarker(pieces[k])
    ensures SplitOnMarker(JoinWithMarker(pieces)) == pieces
  {
    if |pieces| == 1 {
      SplitMarkerFree(pieces[0]);
    } else {
      JoinSplit(pieces[1..]);
      SplitAfterPiece(pieces[0], JoinWithMarker(pieces[1..]));
      assert [pieces[0]] + pieces[1..] == pieces;
    }
  }

  // ---------------------------------------------------------------------------------------------
  // renderFormattedContent

  /** item.trim() is not empty: the filter of the bullet pieces. */
  predicate NonBlank(piece: string) {
    Trim(piece) != []
  }

  /** content.split("\n-").filter(item => item.trim()), each shown as item.trim(). */
  function BulletItems(content: string): seq<string> {
    FilterMap(SplitOnMarker(content), NonBlank, Trim)
  }

  /** What the helper renders: nothing, the text unchanged, or a bullet list. */
  datatype Formatted = Nothing | Plain(text: string) | Bullets(items: seq<string>)

  /** renderFormattedContent: nothing for absent or empty content, a bullet list when the
      content contains the marker, and otherwise the content itself. */
  function RenderFormattedContent(content: Option<string>): (r: Formatted)
    ensures r.Nothing? <==> content.None? || content.value == []
    ensures r.Plain? ==> content == Some(r.text) && !HasMarker(r.text)
    ensures r.Bullets? <==> content.Some? && HasMarker(content.value)
    ensures r.Bullets? ==> r.items == BulletItems(content.value)
  {
    match content
    case None => Nothing
    case Some(text) =>
      if text == [] then Nothing
      else if HasMarker(text) then Bullets(BulletItems(text))
      else Plain(text)
  }

  /** The bullet items are exactly the trimmed non-blank pieces, in their order: item k is the
      trimmed piece at the k-th position that is not blank. */
  lemma BulletItemsArePieces(content: string)
    ensures var pieces := SplitOnMarker(content);
      var ks := KeptFrom(pieces, NonBlank, 0);
      && |BulletItems(content)| == |ks|
      && forall k :: 0 <= k < |ks| ==> BulletItems(content)[k] == Trim(pieces[ks[k]])
  {
    var pieces := SplitOnMarker(content);
    FilterMapSelects(pieces, NonBlank, Trim, 0);
    assert pieces[0..] == pieces;
  }

  /** No bullet item is empty or contains the marker, and there are at most one more items
      than markers. */
  lemma BulletItemsShape(content: string)
    ensures forall k :: 0 <= k < |BulletItems(content)| ==>
      BulletItems(content)[k] != [] && !HasMarker(BulletItems(content)[k])
    ensures |BulletItems(content)| <= MarkerCount(content) + 1
  {
    var pieces := SplitOnMarker(content);
    var items := BulletItems(content);
    var ks := KeptFrom(pieces, NonBlank, 0);
    BulletItemsArePieces(content);
    SplitPiecesMarkerFree(content);
    SplitCount(content);
    forall k | 0 <= k < |items|
      ensures items[k] != [] && !HasMarker(items[k])
    {
      TrimmedPieceShape(pieces[ks[k]]);
    }
  }

  /** A trimmed non-blank marker-free piece is non-empty and marker-free. */
  lemma TrimmedPieceShape(piece: string)
    requires NonBlank(piece) && !HasMarker(piece)
    ensures Trim(piece) != [] && !HasMarker(Trim(piece))
  {
    var a := |piece| - |TrimStart(piece)|;
    SliceMarkerFree(piece, a, a + |Trim(piece)|);
  }

  // ---------------------------------------------------------------------------------------------
  // Table of contents and the first heading

  /** One block of a component's documentation: its type ("h2", "h3", "p", ...) and content. */
  datatype DocItem = DocItem(kind: string, content: string)

  /** A ComponentDocs entry; the description may be absent. */
  datatype ComponentDoc = ComponentDoc(id: string, title: string, description: Option<seq<DocItem>>)

  predicate IsH3(item: DocItem) {
    item.kind == "h3"
  }

  function ContentOf(item: DocItem): string {
    item.content
  }

  /** description?.filter(item => item.type === "h3").map(item => item.content) || [] */
  function TableOfContents(description: Option<seq<DocItem>>): seq<string> {
    match description
    case None => []
    case Some(items) => FilterMap(items, IsH3, ContentOf)
  }

  /** The table of contents lists exactly the contents of the h3 items, in order; it is empty
      when there is no description. */
  lemma TableOfContentsSelectsHeadings(description: Option<seq<DocItem>>)
    ensures description.None? ==> TableOfContents(description) == []
    ensures description.Some? ==>
      var items := description.value;
      var ks := KeptFrom(items, IsH3, 0);
      && |TableOfContents(description)| == |ks|
      && forall k :: 0 <= k < |ks| ==> TableOfContents(description)[k] == items[ks[k]].content
  {
    if description.Some? {
      FilterMapSelects(description.value, IsH3, ContentOf, 0);
      assert description.value[0..] == description.value;
    }
  }

  /** description.find(item => item.type === "h3")?.content, as the effect reads it. */
  function FirstHeading(description: Option<seq<DocItem>>): Option<string> {
    match description
    case None => None
    case Some(items) =>
      match FindFirst(items, IsH3)
      case None => None
      case Some(i) => Some(items[i].content)
  }

  /** The first heading exists exactly when the table of contents is not empty, and it is the
      first entry of the table. */
  lemma FirstHeadingIsFirstEntry(description: Option<seq<DocItem>>)
    ensures FirstHeading(description).None? <==> TableOfContents(description) == []
    ensures FirstHeading(description).Some? ==>
      FirstHeading(description).value == TableOfContents(description)[0]
  {
    if description.Some? {
      FilterMapHead(description.value, IsH3, ContentOf);
    }
  }

  // ---------------------------------------------------------------------------------------------
  // Anchor slugs

  /** title.replace(/\s+/g, "-"): every maximal run of whitespace becomes one hyphen. */
  function CollapseWhitespace(s: string): (r: string)
    decreases |s|
  {
    if s == [] then []
    else if IsWhitespace(s[0]) then "-" + CollapseWhitespace(TrimStart(s))
    else [s[0]] + CollapseWhitespace(s[1..])
  }

  /** title.replace(/\s+/g, "-").toLowerCase(): the id of a section's heading and the fragment
      of its link. */
  function Slug(title: string): string {
    ToLowerAscii(CollapseWhitespace(title))
  }

  /** Neither whitespace nor an upper-case ASCII letter. */
  predicate SlugChar(c: char) {
    !IsWhitespace(c) && !IsUpperAscii(c)
  }

  ghost predicate IsSlug(s: string) {
    forall i :: 0 <= i < |s| ==> SlugChar(s[i])
  }

  /** Collapsing never lengthens the string. */
  lemma {:induction false} CollapseShorter(s: string)
    ensures |CollapseWhitespace(s)| <= |s|
    decreases |s|
  {
    if s != [] {
      if IsWhitespace(s[0]) {
        CollapseShorter(TrimStart(s));
      } else {
        CollapseShorter(s[1..]);
      }
    }
  }

  /** Collapsing leaves no whitespace. */
  lemma {:induction false} CollapseNoWhitespace(s: string)
    ensures forall i :: 0 <= i < |CollapseWhitespace(s)| ==> !IsWhitespace(CollapseWhitespace(s)[i])
    decreases |s|
  {
    if s != [] {
      var t := if IsWhitespace(s[0]) then TrimStart(s) else s[1..];
      CollapseNoWhitespace(t);
      var r, q := CollapseWhitespace(s), CollapseWhitespace(t);
      assert forall i :: 1 <= i < |r| ==> r[i] == q[i - 1];
    }
  }

  /** Collapsing leaves no whitespace, never lengthens, and changes nothing in a string without
      whitespace. */
  lemma CollapseWhitespaceShape(s: string)
    ensures var r := CollapseWhitespace(s);
      && |r| <= |s|
      && (forall i :: 0 <= i < |r| ==> !IsWhitespace(r[i]))
      && ((forall i :: 0 <= i < |s| ==> !IsWhitespace(s[i])) ==> r == s)
  {
    CollapseShorter(s);
    CollapseNoWhitespace(s);
    if forall i :: 0 <= i < |s| ==> !IsWhitespace(s[i]) {
      CollapseWord(s, []);
      assert s + [] == s;
    }
  }

  /** A whitespace run followed by non-whitespace text is counted whole. */
  lemma {:induction false} LeadingRun(w: string, b: string)
    requires AllWhitespace(w)
    requires b == [] || !IsWhitespace(b[0])
    ensures LeadingWhitespace(w + b) == |w|
  {
    if w != [] {
      assert (w + b)[0] == w[0] && (w + b)[1..] == w[1..] + b;
      LeadingRun(w[1..], b);
    } else {
      assert w + b == b;
    }
  }

  /** Trimming the start of a whitespace run followed by non-whitespace text leaves the text. */
  lemma TrimStartRun(w: string, b: string)
    requires AllWhitespace(w)
    requires b == [] || !IsWhitespace(b[0])
    ensures TrimStart(w + b) == b
  {
    LeadingRun(w, b);
    assert (w + b)[|w|..] == b;
  }

  /** A leading non-whitespace character is kept as it is. */
  lemma CollapseCons(c: char, t: string)
    requires !IsWhitespace(c)
    ensures CollapseWhitespace([c] + t) == [c] + CollapseWhitespace(t)
  {
    assert ([c] + t)[1..] == t;
  }

  /** A leading whitespace run followed by non-whitespace text becomes a single hyphen. */
  lemma CollapseLeadingRun(w: string, b: string)
    requires w != [] && AllWhitespace(w)
    requires b == [] || !IsWhitespace(b[0])
    ensures CollapseWhitespace(w + b) == "-" + CollapseWhitespace(b)
  {
    assert (w + b)[0] == w[0];
    TrimStartRun(w, b);
  }

  /** A word without whitespace is copied as it is, whatever follows it. */
  lemma {:induction false} CollapseWord(word: string, t: string)
    requires forall i :: 0 <= i < |word| ==> !IsWhitespace(word[i])
    ensures CollapseWhitespace(word + t) == word + CollapseWhitespace(t)
    decreases |word|
  {
    if word == [] {
      assert word + t == t;
    } else {
      var rest := word[1..];
      assert word + t == [word[0]] + (rest + t);
      CollapseCons(word[0], rest + t);
      assert forall i :: 0 <= i < |rest| ==> rest[i] == word[i + 1];
      CollapseWord(rest, t);
      assert [word[0]] + (rest + CollapseWhitespace(t)) == word + CollapseWhitespace(t);
    }
  }

  /** A word followed by a whitespace run keeps the word and turns the run into a single
      hyphen, whatever non-whitespace text follows. */
  lemma CollapseRun(word: string, w: string, b: string)
    requires forall i :: 0 <= i < |word| ==> !IsWhitespace(word[i])
    requires w != [] && AllWhitespace(w)
    requires b == [] || !IsWhitespace(b[0])
    ensures CollapseWhitespace(word + w + b) == word + "-" + CollapseWhitespace(b)
  {
    assert word + w + b == word + (w + b);
    CollapseWord(word, w + b);
    CollapseLeadingRun(w, b);
  }

  /** Slugs contain no whitespace and no upper-case letter. */
  lemma SlugShape(title: string)
    ensures IsSlug(Slug(title))
    ensures |Slug(title)| <= |title|
  {
    CollapseWhitespaceShape(title);
  }

  /** A title is its own slug exactly when it is made of slug characters; so slugging twice
      is slugging once. */
  lemma SlugFixedPoint(title: string)
    ensures Slug(title) == title <==> IsSlug(title)
    ensures Slug(Slug(title)) == Slug(title)
  {
    SlugShape(title);
    if IsSlug(title) {
      CollapseWhitespaceShape(title);
      assert ToLowerAscii(title) == title;
    }
    var once := Slug(title);
    CollapseWhitespaceShape(once);
    assert ToLowerAscii(once) == once;
  }

  /** The link of a table-of-contents entry: "#" followed by the slug. */
  function Href(title: string): string {
    "#" + Slug(title)
  }

  /** Every link in the table of contents targets the id that a click on it scrolls to, and
      that id contains no whitespace. The link and the scroll target are built from the same
      expression, so their match holds by construction (ScrollToSection states it for the id it
      returns); what is proved here is that the target is a slug. */
  lemma LinksMatchScrollTargets(description: Option<seq<DocItem>>)
    ensures forall k :: 0 <= k < |TableOfContents(description)| ==>
      var title := TableOfContents(description)[k];
      Href(title)[1..] == Slug(title) && IsSlug(Href(title)[1..])
  {
    forall k | 0 <= k < |TableOfContents(description)|
      ensures var title := TableOfContents(description)[k];
        Href(title)[1..] == Slug(title) && IsSlug(Href(title)[1..])
    {
      SlugShape(TableOfContents(description)[k]);
    }
  }

  // ---------------------------------------------------------------------------------------------
  // Looking up the page

  /** The keys of componentMap. */
  const ImplementedComponents: set<string> := {"Button", "Card", "Modal"}

  /** What the page shows for the active title. */
  datatype PageView =
    | ComponentNotFound
    | NotImplemented(doc: ComponentDoc)
    | Preview(doc: ComponentDoc)

  /** ComponentDocs.find(comp => comp.title === active), then componentMap[component.title]. */
  function ResolvePage(docs: seq<ComponentDoc>, active: string): (v: PageView)
    ensures v.ComponentNotFound? <==> forall i :: 0 <= i < |docs| ==> docs[i].title != active
    ensures !v.ComponentNotFound? ==>
      exists i :: && 0 <= i < |docs| && docs[i] == v.doc
                  && (forall j :: 0 <= j < i ==> docs[j].title != active)
    ensures !v.ComponentNotFound? ==> v.doc.title == active
    ensures v.Preview? <==> !v.ComponentNotFound? && active in ImplementedComponents
  {
    match FindFirst(docs, (d: ComponentDoc) => d.title == active)
    case None => ComponentNotFound
    case Some(i) =>
      var doc := docs[i];
      if doc.title in ImplementedComponents then Preview(doc) else NotImplemented(doc)
  }

  // ---------------------------------------------------------------------------------------------
  // The page's state

  class PageState {
    var activeSection: Option<string>
    var isFullscreen: bool

    constructor ()
      ensures activeSection == None && !isFullscreen
    {
      activeSection := None;
      isFullscreen := false;
    }

    /** toggleFullscreen */
    method ToggleFullscreen()
      modifies this`isFullscreen
      ensures isFullscreen == !old(isFullscreen)
    {
      isFullscreen := !isFullscreen;
    }

    /** The effect run when the component changes: the first h3 becomes the active section,
        which is the first entry of the table of contents; without one nothing changes. */
    method ComponentChanged(doc: ComponentDoc)
      modifies this`activeSection
      ensures TableOfContents(doc.description) != [] ==>
        activeSection == Some(TableOfContents(doc.description)[0])
      ensures TableOfContents(doc.description) == [] ==> activeSection == old(activeSection)
    {
      FirstHeadingIsFirstEntry(doc.description);
      if doc.description.Some? {
        var items := doc.description.value;
        match FindFirst(items, IsH3)
        case None =>
        case Some(i) =>
          activeSection := Some(items[i].content);
      }
    }

    /** scrollToSection: the clicked title becomes the active section, and the element looked
        up is the one whose id is the title's slug. */
    method ScrollToSection(title: string) returns (targetId: string)
      modifies this`activeSection
      ensures activeSection == Some(title)
      ensures targetId == Slug(title) && Href(title) == "#" + targetId
    {
      activeSection := Some(title);
      targetId := Slug(title);
    }
  }

  /** Toggling fullscreen twice restores the original value. */
  method ToggleTwice(page: PageState)
    modifies page`isFullscreen
    ensures page.isFullscreen == old(page.isFullscreen)
  {
    page.ToggleFullscreen();
    page.ToggleFullscreen();
  }
}
