/** The computed-style scanner that flags likely chat-widget launchers:
    elements among `div, iframe, button, a` that are fixed or sticky, stacked
    at z-index 1000 or above, offset from the right and bottom edges, and
    visible.  The page is given as its elements in document order, each with
    the computed-style values the scanner reads and its rendered size. */
module DetectorUtils {
  import opened Seqs
  import opened JsParseInt

  /** The computed-style values the scanner reads, as the strings
      `getPropertyValue` returns (`"fixed"`, `"1000"`, `"20px"`, `"auto"`). */
  datatype StyleDeclaration = StyleDeclaration(
    position: string,
    zIndex: string,
    bottom: string,
    right: string,
    display: string,
    visibility: string)

  /** The size of an element's bounding box. */
  datatype Rect = Rect(width: real, height: real)

  /** What the scanner holds about one element once it has read its style:
      the offsets and z-index already passed through `parseInt(v, 10) || 0`. */
  datatype StyleValues = StyleValues(
    position: string,
    zIndex: int,
    bottom: int,
    right: int,
    display: string,
    visibility: string,
    rect: Rect)

  /** A page element: `ref` is the handle that identifies the node, `tag` its
      lower-case tag name. */
  datatype Element = Element(ref: nat, tag: string, style: StyleValues)

  /** Reading one element's computed style and bounding box: each number is
      the integer its text starts with, and a text without one (`auto`)
      reads as 0. */
  function ReadStyle(declaration: StyleDeclaration, rect: Rect): (v: StyleValues)
    ensures ReadsAs(declaration.zIndex, v.zIndex)
    ensures ReadsAs(declaration.bottom, v.bottom)
    ensures ReadsAs(declaration.right, v.right)
    ensures NoLeadingDigit(declaration.zIndex) ==> v.zIndex == 0
    ensures NoLeadingDigit(declaration.bottom) ==> v.bottom == 0
    ensures NoLeadingDigit(declaration.right) ==> v.right == 0
    ensures v.position == declaration.position && v.display == declaration.display
    ensures v.visibility == declaration.visibility && v.rect == rect
  {
    StyleValues(
      declaration.position,
      ParseIntOrZero(declaration.zIndex),
      ParseIntOrZero(declaration.bottom),
      ParseIntOrZero(declaration.right),
      declaration.display,
      declaration.visibility,
      rect)
  }

  const MinZIndex := 1000

  /** Tags matched by the selector `div, iframe, button, a`. */
  predicate IsCandidate(e: Element) {
    e.tag == "div" || e.tag == "iframe" || e.tag == "button" || e.tag == "a"
  }

  predicate IsFixed(e: Element) {
    e.style.position == "fixed" || e.style.position == "sticky"
  }

  predicate IsZIndex(e: Element) {
    e.style.zIndex >= MinZIndex
  }

  /** The offset tests are strict: an element flush with the right or the
      bottom edge (offset 0), or with no usable offset, is not a match. */
  predicate IsRight(e: Element) {
    e.style.right > 0
  }

  predicate IsBottom(e: Element) {
    e.style.bottom > 0
  }

  predicate IsVisible(e: Element) {
    e.style.display != "none" && e.style.visibility != "hidden" &&
    e.style.rect.width > 0.0 && e.style.rect.height > 0.0
  }

  /** The style signature of a widget launcher: all five conjuncts. */
  predicate IsMatch(e: Element) {
    IsFixed(e) && IsZIndex(e) && IsRight(e) && IsBottom(e) && IsVisible(e)
  }

  /** `document.querySelectorAll('div, iframe, button, a')`. */
  function CandidateElements(document: seq<Element>): seq<Element> {
    Keep(document, IsCandidate)
  }

  /** What the scan returns for a document. */
  function MatchingElements(document: seq<Element>): seq<Element> {
    Keep(CandidateElements(document), IsMatch)
  }

  /** The script `findElementsByStyle`: one pass over the candidates, pushing
      each one that matches the style signature. */
  method FindElementsByStyle(document: seq<Element>) returns (matchingElements: seq<Element>)
    ensures matchingElements == MatchingElements(document)
    ensures forall e :: e in matchingElements ==> IsCandidate(e) && IsMatch(e)
    ensures forall e :: e in document && IsCandidate(e) && IsMatch(e) ==> e in matchingElements
  {
    var candidateElements := CandidateElements(document);
    matchingElements := [];
    for i := 0 to |candidateElements|
      invariant matchingElements == Keep(candidateElements[..i], IsMatch)
    {
      var element := candidateElements[i];
      KeepStep(candidateElements, i, IsMatch);
      if IsMatch(element) {
        matchingElements := matchingElements + [element];
      }
    }
    assert candidateElements[..|candidateElements|] == candidateElements;
    MatchingElementsSound(document);
    MatchingElementsComplete(document);
  }

  /** Soundness: every element returned has a candidate tag and satisfies
      each conjunct of the signature. */
  lemma MatchingElementsSound(document: seq<Element>)
    ensures forall e :: e in MatchingElements(document) ==>
      e in document && IsCandidate(e) &&
      (e.style.position == "fixed" || e.style.position == "sticky") &&
      e.style.zIndex >= 1000 && e.style.right > 0 && e.style.bottom > 0 &&
      e.style.display != "none" && e.style.visibility != "hidden" &&
      e.style.rect.width > 0.0 && e.style.rect.height > 0.0
  {
    KeepSound(document, IsCandidate);
    KeepSound(CandidateElements(document), IsMatch);
  }

  /** Completeness: every candidate of the document that satisfies the whole
      signature is returned. */
  lemma MatchingElementsComplete(document: seq<Element>)
    ensures forall e :: e in document && IsCandidate(e) && IsMatch(e) ==> e in MatchingElements(document)
  {
    forall e | e in document && IsCandidate(e) && IsMatch(e) ensures e in MatchingElements(document) {
      KeepComplete(document, IsCandidate, e);
      KeepComplete(CandidateElements(document), IsMatch, e);
    }
  }

  /** Each element is returned exactly as often as it occurs among the
      candidates when it matches, and never otherwise. */
  lemma MatchingElementsCount(document: seq<Element>, e: Element)
    ensures multiset(MatchingElements(document))[e] ==
      if IsCandidate(e) && IsMatch(e) then multiset(document)[e] else 0
  {
    KeepCount(document, IsCandidate, e);
    KeepCount(CandidateElements(document), IsMatch, e);
  }

  /** Order: the result lists elements in document order, as a subsequence
      of the candidates and of the document. */
  lemma MatchingElementsOrder(document: seq<Element>)
    ensures IsSubsequence(MatchingElements(document), CandidateElements(document))
    ensures IsSubsequence(MatchingElements(document), document)
    ensures |MatchingElements(document)| <= |CandidateElements(document)| <= |document|
  {
    KeepIsSubsequence(document, IsCandidate);
    KeepIsSubsequence(CandidateElements(document), IsMatch);
    SubsequenceTrans(MatchingElements(document), CandidateElements(document), document);
  }

  /** No element is returned twice when the document lists each node once. */
  lemma MatchingElementsDistinct(document: seq<Element>)
    requires Distinct(document)
    ensures Distinct(MatchingElements(document))
  {
    KeepDistinct(document, IsCandidate);
    KeepDistinct(CandidateElements(document), IsMatch);
  }

  /** A z-index that is not a number (`auto`) reads as 0, so the element
      is excluded. */
  lemma AutoZIndexExcluded(ref: nat, tag: string, declaration: StyleDeclaration, rect: Rect)
    requires declaration.zIndex == "auto"
    ensures ReadStyle(declaration, rect).zIndex == 0
    ensures !IsMatch(Element(ref, tag, ReadStyle(declaration, rect)))
  {
    NoDigitsReadsAsZero(declaration.zIndex);
  }

  /** An element sitting flush with the right or bottom edge (`0px`) is
      excluded, whatever else it satisfies. */
  lemma FlushOffsetExcluded(ref: nat, tag: string, declaration: StyleDeclaration, rect: Rect)
    requires declaration.right == "0px" || declaration.bottom == "0px"
    ensures !IsMatch(Element(ref, tag, ReadStyle(declaration, rect)))
  {
    ZeroPixelsReadsAsZero();
  }

  /** A style written as computed style serialises it (`z-index: N`,
      `right: Rpx`, `bottom: Bpx`) on a fixed, visible element matches
      exactly when N >= 1000, R > 0 and B > 0. */
  lemma SerializedStyleMatch(ref: nat, tag: string, declaration: StyleDeclaration, rect: Rect, z: int, r: int, b: int)
    requires declaration.zIndex == IntToDecimal(z)
    requires declaration.right == IntToDecimal(r) + "px"
    requires declaration.bottom == IntToDecimal(b) + "px"
    requires declaration.position == "fixed" || declaration.position == "sticky"
    requires declaration.display != "none" && declaration.visibility != "hidden"
    requires rect.width > 0.0 && rect.height > 0.0
    ensures IsMatch(Element(ref, tag, ReadStyle(declaration, rect))) <==> z >= 1000 && r > 0 && b > 0
  {
    ParseIntRoundTrip(z, "");
    assert IntToDecimal(z) + "" == IntToDecimal(z);
    ParseIntRoundTrip(r, "px");
    ParseIntRoundTrip(b, "px");
  }

  /** What `driver.execute_script` hands back: the script's value (a list of
      elements, or null), or the exception it raised. */
  datatype ScriptValue = Null | ElementList(elements: seq<Element>)
  datatype ScriptOutcome = Returned(value: ScriptValue) | Raised(error: string)

  /** `find_elements_by_computed_style`: a raised exception, a null result
      and an empty list all become the empty list; nothing propagates. */
  function FindElementsByComputedStyle(outcome: ScriptOutcome): (elements: seq<Element>)
    ensures elements != [] ==> outcome == Returned(ElementList(elements))
    ensures outcome.Returned? && outcome.value.ElementList? ==> elements == outcome.value.elements
  {
    match outcome
    case Raised(_) => []
    case Returned(Null) => []
    case Returned(ElementList(found)) => if |found| > 0 then found else []
  }

  /** Whether the script runs to completion on the document or fails, the
      caller receives either nothing or exactly the scan's result. */
  lemma FindElementsByComputedStyleOnDocument(document: seq<Element>, outcome: ScriptOutcome)
    requires outcome.Raised? || outcome == Returned(ElementList(MatchingElements(document)))
    ensures var elements := FindElementsByComputedStyle(outcome);
      (outcome.Raised? ==> elements == []) &&
      (outcome.Returned? ==> elements == MatchingElements(document)) &&
      forall e :: e in elements ==> IsCandidate(e) && IsMatch(e)
  {
    MatchingElementsSound(document);
  }
}
