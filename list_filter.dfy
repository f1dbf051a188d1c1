/**
 * `Array.prototype.filter` and the reveal-on-scroll set shared by the
 * category grids (PricingFAQ, SecurityFeatures, FeatureGrid).
 */
module ListFilter {

  import opened Wrappers

  /** `xs.filter(p)`: the elements satisfying `p`, in their original order. */
  function Filter<T>(xs: seq<T>, p: T -> bool): (r: seq<T>)
    ensures |r| <= |xs|
    ensures forall i | 0 <= i < |r| :: r[i] in xs && p(r[i])
    ensures forall i | 0 <= i < |xs| :: p(xs[i]) ==> xs[i] in r
  {
    if xs == [] then [] else (if p(xs[0]) then [xs[0]] else []) + Filter(xs[1..], p)
  }

  lemma FilterOne<T>(x: T, p: T -> bool)
    ensures Filter([x], p) == if p(x) then [x] else []
  {
    assert [x][1..] == [];
  }

  /** Filtering works piecewise, so the relative order of kept elements is the input order. */
  lemma {:induction false} FilterConcat<T>(a: seq<T>, b: seq<T>, p: T -> bool)
    ensures Filter(a + b, p) == Filter(a, p) + Filter(b, p)
  {
    if a != [] {
      assert (a + b)[1..] == a[1..] + b;
      FilterConcat(a[1..], b, p);
    } else {
      assert a + b == b;
    }
  }

  /** A filter that keeps every element returns its input unchanged. */
  lemma {:induction false} FilterKeepsAll<T>(xs: seq<T>, p: T -> bool)
    requires forall i | 0 <= i < |xs| :: p(xs[i])
    ensures Filter(xs, p) == xs
  {
    if xs != [] {
      FilterKeepsAll(xs[1..], p);
    }
  }

  /** Two tests that agree on every element select the same elements. */
  lemma {:induction false} FilterCongruent<T>(xs: seq<T>, p: T -> bool, q: T -> bool)
    requires forall i | 0 <= i < |xs| :: p(xs[i]) == q(xs[i])
    ensures Filter(xs, p) == Filter(xs, q)
  {
    if xs != [] {
      FilterCongruent(xs[1..], p, q);
    }
  }

  /**
   * The IntersectionObserver callback: an entry that is intersecting and
   * carries a (non-empty) id attribute adds that id, `new Set([...prev, id])`.
   */
  function Reveal(visible: set<string>, intersecting: bool, id: Option<string>): (r: set<string>)
    ensures visible <= r
    ensures forall x :: x in r <==> x in visible || (intersecting && id == Some(x) && x != "")
  {
    if intersecting && id.Some? && id.value != "" then visible + {id.value} else visible
  }

  datatype Entry = Entry(intersecting: bool, id: Option<string>)

  /** Processing a batch of observer entries one after another. */
  function RevealAll(visible: set<string>, entries: seq<Entry>): set<string>
    decreases |entries|
  {
    if entries == [] then visible
    else RevealAll(Reveal(visible, entries[0].intersecting, entries[0].id), entries[1..])
  }

  /** The visible set only grows, however many entries are observed. */
  lemma {:induction false} RevealAllGrows(visible: set<string>, entries: seq<Entry>)
    ensures visible <= RevealAll(visible, entries)
    decreases |entries|
  {
    if entries != [] {
      RevealAllGrows(Reveal(visible, entries[0].intersecting, entries[0].id), entries[1..]);
    }
  }
}
