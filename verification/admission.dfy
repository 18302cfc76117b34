/** The event filter in front of the reconciler (the predicate built in
    `SetupWithManager`): a VCI event passes when the VCI's labels satisfy the
    configured label selector. The filter fails open: an empty selector, or
    one that does not parse, lets every event through. */
module EventFilter {
  import opened Text
  import opened Wrappers
  import opened Cluster

  /** The requirement operators of a Kubernetes label selector. */
  datatype Operator = Equals | NotEquals | In | NotIn | Exists | DoesNotExist

  datatype Requirement = Requirement(key: Bytes, op: Operator, values: set<Bytes>)

  /** A parsed selector: all of its requirements must hold. */
  type Selector = seq<Requirement>

  predicate RequirementMatches(r: Requirement, labels: Labels) {
    match r.op
    case Equals => r.key in labels && labels[r.key] in r.values
    case In => r.key in labels && labels[r.key] in r.values
    case NotEquals => r.key !in labels || labels[r.key] !in r.values
    case NotIn => r.key !in labels || labels[r.key] !in r.values
    case Exists => r.key in labels
    case DoesNotExist => r.key !in labels
  }

  predicate Matches(sel: Selector, labels: Labels) {
    forall i :: 0 <= i < |sel| ==> RequirementMatches(sel[i], labels)
  }

  /** The filter. `obj` is `None` for a nil object; `parse` is the selector
      parser, `None` meaning a syntax error. An event is dropped exactly when
      there is no object, or the selector is non-empty, parses, and the
      object's labels do not satisfy it. */
  function Admit(obj: Option<Labels>, selectorText: Bytes, parse: Bytes -> Option<Selector>): (admitted: bool)
    ensures !admitted <==>
      obj.None? || (selectorText != [] && parse(selectorText).Some? && !Matches(parse(selectorText).value, obj.value))
  {
    if obj.None? then false
    else if selectorText == [] then true
    else
      match parse(selectorText)
      case None => true
      case Some(sel) => Matches(sel, obj.value)
  }

  /** A nil object is never admitted, whatever the selector. */
  lemma NilNeverAdmitted(selectorText: Bytes, parse: Bytes -> Option<Selector>)
    ensures !Admit(None, selectorText, parse)
  {
  }

  /** An empty selector admits every object, whatever `parse` would say. */
  lemma EmptySelectorAdmits(labels: Labels, parse: Bytes -> Option<Selector>)
    ensures Admit(Some(labels), [], parse)
  {
  }

  /** A selector that does not parse filters nothing out. */
  lemma FailOpen(labels: Labels, selectorText: Bytes, parse: Bytes -> Option<Selector>)
    requires parse(selectorText).None?
    ensures Admit(Some(labels), selectorText, parse)
  {
  }

  /** With a selector that parses, the filter is exactly label matching. */
  lemma ParsedSelectorDecides(labels: Labels, selectorText: Bytes, parse: Bytes -> Option<Selector>)
    requires selectorText != [] && parse(selectorText).Some?
    ensures Admit(Some(labels), selectorText, parse) == Matches(parse(selectorText).value, labels)
  {
  }

  /** A selector made of one equality requirement per entry of `m` (what
      `labels.SelectorFromSet(m)` builds) selects exactly the label sets that
      contain `m`, which is how garbage collection is modelled. */
  lemma EqualitySelector(sel: Selector, m: Labels, labels: Labels)
    requires forall i :: 0 <= i < |sel| ==>
      sel[i].op == Equals && sel[i].key in m && sel[i].values == {m[sel[i].key]}
    requires forall k :: k in m ==> exists i :: 0 <= i < |sel| && sel[i].key == k
    ensures Matches(sel, labels) <==> Selects(m, labels)
  {
    if Matches(sel, labels) {
      forall k | k in m ensures k in labels && labels[k] == m[k] {
        var i :| 0 <= i < |sel| && sel[i].key == k;
        assert RequirementMatches(sel[i], labels);
      }
    }
  }
}
