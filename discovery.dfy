/**
 * Target discovery: `collectTargets` queries the page for buttons, ARIA buttons and
 * linked anchors, then keeps those that are laid out and are not disabled buttons.
 */
module Discovery {
  import opened Wrappers
  import opened Text
  import opened Dom

  /** A type selector: case-insensitive on HTML elements, exact on foreign ones. */
  predicate HasType(e: Element, name: string) {
    if e.html then Lower(e.tagName) == name else e.tagName == name
  }

  /** The selector `button, [role='button'], a[href]`. */
  predicate MatchesSelector(e: Element) {
    HasType(e, "button") || e.role == Some("button") || (HasType(e, "a") && e.href.Some?)
  }

  /** The filter of `collectTargets`. */
  predicate Eligible(e: Element) {
    e.html && e.hasOffsetParent && !(IsHtmlButton(e) && e.disabled)
  }

  /** `document.querySelectorAll(...)` over the page's elements in document order. */
  function QueryCandidates(page: seq<Element>): seq<Element> {
    if page == [] then []
    else (if MatchesSelector(page[0]) then [page[0]] else []) + QueryCandidates(page[1..])
  }

  /** The `filter` applied to the query result. */
  function KeepEligible(nodes: seq<Element>): seq<Element> {
    if nodes == [] then []
    else (if Eligible(nodes[0]) then [nodes[0]] else []) + KeepEligible(nodes[1..])
  }

  /** The membership facts of the two stages, stated position by position. */
  lemma FilteredQueryMembers(page: seq<Element>)
    ensures var r := KeepEligible(QueryCandidates(page));
      (forall i :: 0 <= i < |r| ==> r[i] in page && MatchesSelector(r[i]) && Eligible(r[i])) &&
      (forall i :: 0 <= i < |page| && MatchesSelector(page[i]) && Eligible(page[i]) ==> page[i] in r) &&
      IsSubsequence(r, QueryCandidates(page)) && IsSubsequence(QueryCandidates(page), page)
  {
    QueryCandidatesMembers(page);
    var q := QueryCandidates(page);
    KeepEligibleMembers(q);
    var r := KeepEligible(q);
    forall i | 0 <= i < |r| ensures r[i] in page && MatchesSelector(r[i]) {
      var j :| 0 <= j < |q| && q[j] == r[i];
    }
    forall i | 0 <= i < |page| && MatchesSelector(page[i]) && Eligible(page[i]) ensures page[i] in r {
      var j :| 0 <= j < |q| && q[j] == page[i];
    }
  }

  /** `collectTargets`. */
  function CollectTargets(page: seq<Element>): seq<Element> {
    KeepEligible(QueryCandidates(page))
  }

  /** The targets are exactly the page's elements that match the selector, are laid out
      and are not disabled buttons, in document order: a subsequence of the query result
      and of the page. */
  lemma CollectTargetsContents(page: seq<Element>)
    ensures var r := CollectTargets(page);
      (forall i :: 0 <= i < |r| ==> r[i] in page && MatchesSelector(r[i]) && Eligible(r[i])) &&
      (forall i :: 0 <= i < |page| && MatchesSelector(page[i]) && Eligible(page[i]) ==> page[i] in r) &&
      IsSubsequence(r, QueryCandidates(page)) && IsSubsequence(r, page)
  {
    FilteredQueryMembers(page);
    SubsequenceTransitive(CollectTargets(page), QueryCandidates(page), page);
  }

  /** `a` is `b` with some elements left out, order kept. */
  predicate IsSubsequence(a: seq<Element>, b: seq<Element>) {
    if a == [] then true
    else if b == [] then false
    else if a[0] == b[0] then IsSubsequence(a[1..], b[1..])
    else IsSubsequence(a, b[1..])
  }

  lemma {:induction false} QueryCandidatesMembers(page: seq<Element>)
    ensures forall i :: 0 <= i < |QueryCandidates(page)| ==>
      QueryCandidates(page)[i] in page && MatchesSelector(QueryCandidates(page)[i])
    ensures forall i :: 0 <= i < |page| && MatchesSelector(page[i]) ==> page[i] in QueryCandidates(page)
    ensures IsSubsequence(QueryCandidates(page), page)
  {
    if page != [] {
      QueryCandidatesMembers(page[1..]);
      var rest := QueryCandidates(page[1..]);
      var q := QueryCandidates(page);
      assert page == [page[0]] + page[1..];
      if MatchesSelector(page[0]) {
        assert q == [page[0]] + rest;
        assert ([page[0]] + rest)[1..] == rest;
      } else {
        assert q == rest;
        SubsequenceDropFront(rest, page);
      }
      forall i | 1 <= i < |page| && MatchesSelector(page[i]) ensures page[i] in q {
        assert page[i] == page[1..][i - 1];
      }
    }
  }

  lemma {:induction false} KeepEligibleMembers(nodes: seq<Element>)
    ensures forall i :: 0 <= i < |KeepEligible(nodes)| ==>
      KeepEligible(nodes)[i] in nodes && Eligible(KeepEligible(nodes)[i])
    ensures forall i :: 0 <= i < |nodes| && Eligible(nodes[i]) ==> nodes[i] in KeepEligible(nodes)
    ensures IsSubsequence(KeepEligible(nodes), nodes)
  {
    if nodes != [] {
      KeepEligibleMembers(nodes[1..]);
      var rest := KeepEligible(nodes[1..]);
      var k := KeepEligible(nodes);
      assert nodes == [nodes[0]] + nodes[1..];
      if Eligible(nodes[0]) {
        assert k == [nodes[0]] + rest;
        assert ([nodes[0]] + rest)[1..] == rest;
      } else {
        assert k == rest;
        SubsequenceDropFront(rest, nodes);
      }
      forall i | 1 <= i < |nodes| && Eligible(nodes[i]) ensures nodes[i] in k {
        assert nodes[i] == nodes[1..][i - 1];
      }
    }
  }

  /** Skipping the first element of `b` keeps any subsequence of `b[1..]` a subsequence of `b`. */
  lemma {:induction false} SubsequenceDropFront(a: seq<Element>, b: seq<Element>)
    requires b != [] && IsSubsequence(a, b[1..])
    ensures IsSubsequence(a, b)
    decreases |b|
  {
    if a != [] && a[0] == b[0] {
      SubsequenceTail(a, b[1..]);
      SubsequenceDropFront(a[1..], b[1..]);
    }
  }

  /** A subsequence of `b` with a first element keeps its tail a subsequence of `b`'s tail. */
  lemma {:induction false} SubsequenceTail(a: seq<Element>, b: seq<Element>)
    requires a != [] && IsSubsequence(a, b)
    ensures b != [] && IsSubsequence(a[1..], b[1..])
    decreases |b|
  {
    if a[0] != b[0] {
      SubsequenceTail(a, b[1..]);
      SubsequenceDropFront(a[1..], b[1..]);
    }
  }

  lemma {:induction false} SubsequenceTransitive(a: seq<Element>, b: seq<Element>, c: seq<Element>)
    requires IsSubsequence(a, b) && IsSubsequence(b, c)
    ensures IsSubsequence(a, c)
    decreases |c|
  {
    if a != [] {
      assert b != [];
      if b[0] == c[0] {
        if a[0] == b[0] {
          SubsequenceTransitive(a[1..], b[1..], c[1..]);
        } else {
          SubsequenceTransitive(a, b[1..], c[1..]);
          SubsequenceDropFront(a, c);
        }
      } else {
        SubsequenceTransitive(a, b, c[1..]);
        SubsequenceDropFront(a, c);
      }
    }
  }

  /** No target is a disabled button or an element outside the layout. */
  lemma TargetsAreEnabledAndVisible(page: seq<Element>, e: Element)
    requires e in CollectTargets(page)
    ensures e.hasOffsetParent && !(IsHtmlButton(e) && e.disabled)
  {
    CollectTargetsContents(page);
  }
}
