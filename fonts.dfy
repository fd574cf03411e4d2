// The records the font library passes between its parts, and the list
// helpers (`Array.prototype.filter`, concatenation of strings) they share.

module Fonts {

  datatype Option<+T> = None | Some(value: T)

  /** A font record as the picker and the driver see it. A field that a
      record does not carry is empty (`""`, `[]`, an empty map, `false`). */
  datatype Font = Font(
    id: string,
    family: string,
    variants: seq<string>,
    scripts: seq<string>,
    details: map<string, string>,  // every other catalog field, carried through unchanged
    isLastRecently: bool
  )

  /** A font that only names its family and variants, as a host passes it in. */
  function Named(family: string, variants: seq<string>): Font {
    Font("", family, variants, [], map[], false)
  }

  /** `xs.filter(p)`. */
  function Filter<T>(xs: seq<T>, p: T -> bool): (r: seq<T>)
    ensures |r| <= |xs|
    ensures forall x :: x in r ==> x in xs && p(x)
    ensures forall x :: x in xs && p(x) ==> x in r
    decreases |xs|
  {
    if xs == [] then []
    else if p(xs[0]) then [xs[0]] + Filter(xs[1..], p)
    else Filter(xs[1..], p)
  }

  /** Filtering keeps order: it distributes over concatenation. */
  lemma {:induction false} FilterAppend<T>(a: seq<T>, b: seq<T>, p: T -> bool)
    ensures Filter(a + b, p) == Filter(a, p) + Filter(b, p)
    decreases |a|
  {
    if a != [] {
      assert (a + b)[0] == a[0] && (a + b)[1..] == a[1..] + b;
      FilterAppend(a[1..], b, p);
    } else {
      assert a + b == b;
    }
  }

  /** A filter that only one element passes returns exactly that element. */
  lemma {:induction false} FilterSingleMatch<T>(xs: seq<T>, i: nat, p: T -> bool)
    requires i < |xs| && p(xs[i])
    requires forall j :: 0 <= j < |xs| && j != i ==> !p(xs[j])
    ensures Filter(xs, p) == [xs[i]]
  {
    assert xs == xs[..i] + [xs[i]] + xs[i + 1..];
    FilterAppend(xs[..i] + [xs[i]], xs[i + 1..], p);
    FilterAppend(xs[..i], [xs[i]], p);
    FilterNone(xs[..i], p);
    FilterNone(xs[i + 1..], p);
  }

  lemma {:induction false} FilterNone<T>(xs: seq<T>, p: T -> bool)
    requires forall j :: 0 <= j < |xs| ==> !p(xs[j])
    ensures Filter(xs, p) == []
    decreases |xs|
  {
    if xs != [] {
      FilterNone(xs[1..], p);
    }
  }

  /** `xs.join('')`. */
  function Concat(xs: seq<string>): (r: string)
    decreases |xs|
  {
    if xs == [] then "" else xs[0] + Concat(xs[1..])
  }

  /** `f` applied to every element, or `None` as soon as one application is `None`
      (a `map` whose callback may throw). */
  function AllSome<A, B>(xs: seq<A>, f: A -> Option<B>): Option<seq<B>>
    decreases |xs|
  {
    if xs == [] then Some([])
    else match f(xs[0])
      case None => None
      case Some(y) =>
        match AllSome(xs[1..], f)
        case None => None
        case Some(ys) => Some([y] + ys)
  }

  /** The whole fails exactly when some element fails. */
  lemma {:induction false} AllSomeFails<A, B>(xs: seq<A>, f: A -> Option<B>)
    ensures AllSome(xs, f).None? <==> exists i :: 0 <= i < |xs| && f(xs[i]).None?
    decreases |xs|
  {
    if xs != [] {
      var tail := xs[1..];
      AllSomeFails(tail, f);
      if f(xs[0]).Some? {
        if AllSome(tail, f).None? {
          var j :| 0 <= j < |tail| && f(tail[j]).None?;
          assert xs[j + 1] == tail[j];
        } else {
          forall i | 0 <= i < |xs| ensures f(xs[i]).Some? {
            if i > 0 {
              assert xs[i] == tail[i - 1];
            }
          }
        }
      }
    }
  }

  /** On success, result `i` is what `f` gives for element `i`. */
  lemma {:induction false} AllSomeEntries<A, B>(xs: seq<A>, f: A -> Option<B>)
    ensures var r := AllSome(xs, f);
      r.Some? ==> |r.value| == |xs| && forall i :: 0 <= i < |xs| ==> f(xs[i]) == Some(r.value[i])
    decreases |xs|
  {
    if xs != [] && AllSome(xs, f).Some? {
      var tail := xs[1..];
      AllSomeEntries(tail, f);
      var rest := AllSome(tail, f).value;
      var r := [f(xs[0]).value] + rest;
      assert AllSome(xs, f) == Some(r);
      forall i | 1 <= i < |xs| ensures f(xs[i]) == Some(r[i]) {
        assert xs[i] == tail[i - 1] && r[i] == rest[i - 1];
      }
    }
  }
}
