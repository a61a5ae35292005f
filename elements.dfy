/**
 * `TwimlCodeGenerator.etree_element_eq`: the comparison of two parsed XML trees
 * that decides whether the TwiML a generated program prints is the TwiML it was
 * generated from. Tags, tails, attribute dicts and the number of children must be
 * equal; texts are compared after `clean_text` when both are non-empty, exactly
 * otherwise; children are compared pairwise.
 */
module Elements {
  import opened Wrappers
  import opened Strings
  import opened TwimlIr

  /** An `xml.etree` element: tag, text, tail, attribute dict and children. */
  datatype Element = Element(tag: string, text: Option<string>, tail: Option<string>,
                             attrib: map<string, string>, children: seq<Element>)

  /** Python truthiness of an optional string. */
  predicate Present(s: Option<string>)
  {
    s.Some? && s.value != ""
  }

  /** The text part of the comparison. */
  predicate TextEq(a: Option<string>, b: Option<string>)
  {
    if Present(a) && Present(b) then CleanText(a) == CleanText(b) else a == b
  }

  /** `etree_element_eq(a, b)`. */
  predicate ElementEq(a: Element, b: Element)
    decreases a
  {
    a.tag == b.tag && a.tail == b.tail && a.attrib == b.attrib && TextEq(a.text, b.text)
    && |a.children| == |b.children|
    && forall i :: 0 <= i < |a.children| ==> ElementEq(a.children[i], b.children[i])
  }

  /** Every tree compares equal to itself. */
  lemma {:induction false} ElementEqReflexive(a: Element)
    ensures ElementEq(a, a)
    decreases a
  {
    forall i | 0 <= i < |a.children|
      ensures ElementEq(a.children[i], a.children[i])
    {
      ElementEqReflexive(a.children[i]);
    }
  }

  /** The comparison does not depend on the order of its arguments. */
  lemma {:induction false} ElementEqSymmetric(a: Element, b: Element)
    requires ElementEq(a, b)
    ensures ElementEq(b, a)
    decreases a
  {
    forall i | 0 <= i < |b.children|
      ensures ElementEq(b.children[i], a.children[i])
    {
      ElementEqSymmetric(a.children[i], b.children[i]);
    }
  }

  /** Texts that compare equal to a common text compare equal. */
  lemma TextEqTransitive(a: Option<string>, b: Option<string>, c: Option<string>)
    requires TextEq(a, b) && TextEq(b, c)
    ensures TextEq(a, c)
  {
  }

  /** Trees that compare equal to a common tree compare equal. */
  lemma {:induction false} ElementEqTransitive(a: Element, b: Element, c: Element)
    requires ElementEq(a, b) && ElementEq(b, c)
    ensures ElementEq(a, c)
    decreases a
  {
    TextEqTransitive(a.text, b.text, c.text);
    forall i | 0 <= i < |a.children|
      ensures ElementEq(a.children[i], c.children[i])
    {
      ElementEqTransitive(a.children[i], b.children[i], c.children[i]);
    }
  }

  /**
   * Whitespace around the lines of a text does not count: a tree compares equal to
   * the same tree with its root's non-blank text replaced by the cleaned text.
   */
  lemma CleanedTextEq(a: Element)
    requires CleanText(a.text).Some?
    ensures ElementEq(a, a.(text := CleanText(a.text)))
  {
    CleanTextIdempotent(a.text);
    CleanTextIsCleanLines(a.text.value);
    CleanLinesStarts(Strip(a.text.value));
    forall i | 0 <= i < |a.children|
      ensures ElementEq(a.children[i], a.children[i])
    {
      ElementEqReflexive(a.children[i]);
    }
  }
}
