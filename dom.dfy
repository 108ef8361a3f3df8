/**
 * The host page as the content script sees it: elements with the attributes the core
 * reads, a class list the core changes in place, and the keyboard events it receives.
 */
module Dom {
  import opened Wrappers
  import opened Text

  /** One element of the host page. Everything the core only reads is a constant;
      the class list is the one thing the core changes. */
  class Element {
    /** `element instanceof HTMLElement` (false for SVG and other foreign elements). */
    const html: bool
    const tagName: string
    /** `element.offsetParent !== null`: the element takes part in layout. */
    const hasOffsetParent: bool
    /** The `disabled` property (meaningful on buttons). */
    const disabled: bool
    /** `element.isContentEditable`. */
    const contentEditable: bool
    const innerText: string
    /** `getAttribute` results: `None` when the attribute is absent. */
    const role: Option<string>
    const ariaLabel: Option<string>
    const title: Option<string>
    const href: Option<string>
    /** The `id` property: the empty string when there is no id attribute. */
    const id: string
    var classes: set<string>

    constructor (html: bool, tagName: string, hasOffsetParent: bool, disabled: bool,
                 contentEditable: bool, innerText: string, role: Option<string>,
                 ariaLabel: Option<string>, title: Option<string>, href: Option<string>,
                 id: string, classes: set<string>)
      ensures this.html == html && this.tagName == tagName
      ensures this.hasOffsetParent == hasOffsetParent && this.disabled == disabled
      ensures this.contentEditable == contentEditable && this.innerText == innerText
      ensures this.role == role && this.ariaLabel == ariaLabel && this.title == title
      ensures this.href == href && this.id == id && this.classes == classes
    {
      this.html := html;
      this.tagName := tagName;
      this.hasOffsetParent := hasOffsetParent;
      this.disabled := disabled;
      this.contentEditable := contentEditable;
      this.innerText := innerText;
      this.role := role;
      this.ariaLabel := ariaLabel;
      this.title := title;
      this.href := href;
      this.id := id;
      this.classes := classes;
    }
  }

  /** `element instanceof HTMLButtonElement`. */
  predicate IsHtmlButton(e: Element) {
    e.html && Lower(e.tagName) == "button"
  }

  /** `element instanceof HTMLAnchorElement`. */
  predicate IsHtmlAnchor(e: Element) {
    e.html && Lower(e.tagName) == "a"
  }

  /** The target of a key event: an element, or something else (the document, the window). */
  datatype EventTarget = ElementTarget(element: Element) | OtherTarget

  /** The parts of a `keydown` event the core reads. */
  datatype KeyEvent = KeyEvent(
    key: string,
    ctrlKey: bool, altKey: bool, shiftKey: bool, metaKey: bool,
    defaultPrevented: bool,
    target: EventTarget)

  /** `isTypingField`: an HTML element that is content-editable or an input, textarea or select. */
  predicate IsTypingField(target: EventTarget): (b: bool)
    ensures b ==> target.ElementTarget? && target.element.html
    ensures target.ElementTarget? && target.element.html && target.element.contentEditable ==> b
    ensures target.ElementTarget? && !target.element.contentEditable
      ==> (b <==> target.element.html && Lower(target.element.tagName) in {"input", "textarea", "select"})
  {
    target.ElementTarget? && target.element.html &&
    var tag := Lower(target.element.tagName);
    target.element.contentEditable || tag == "input" || tag == "textarea" || tag == "select"
  }

  /** Two HTML elements that agree on editability and on their tag up to letter case
      are both typing fields or neither: `INPUT`, `Input` and `input` are alike. */
  lemma TypingFieldIgnoresTagCase(a: Element, b: Element)
    requires a.html && b.html && a.contentEditable == b.contentEditable
    requires Lower(a.tagName) == Lower(b.tagName)
    ensures IsTypingField(ElementTarget(a)) == IsTypingField(ElementTarget(b))
  {
  }
}
