/**
 * The sequence operations the pages apply to their entity lists: reverse on load,
 * case-insensitive substring search, replace by id, remove by id, find by id and
 * move-to-front after an edit. Entities are generic; each page passes the accessor
 * of its id (`key`) or of the text a search looks at (`field`).
 */
module ListOps {
  import opened Optional
  import opened Text

  /** `s.slice().reverse()`. */
  function Reverse<T>(s: seq<T>): (r: seq<T>)
    ensures |r| == |s|
    ensures forall k :: 0 <= k < |s| ==> r[k] == s[|s| - 1 - k]
  {
    if s == [] then [] else Reverse(s[1..]) + [s[0]]
  }

  /** Reversing twice gives back the original order. */
  lemma ReverseReverse<T>(s: seq<T>)
    ensures Reverse(Reverse(s)) == s
  {
    var r := Reverse(Reverse(s));
    assert forall k :: 0 <= k < |s| ==> r[k] == s[k];
  }

  /** Appending then reversing puts the new element first, followed by the old list reversed. */
  lemma ReverseAppend<T>(s: seq<T>, x: T)
    ensures Reverse(s + [x]) == [x] + Reverse(s)
  {
    var r, t := Reverse(s + [x]), [x] + Reverse(s);
    assert forall k :: 0 <= k < |r| ==> r[k] == t[k];
  }

  /** `s` is obtained from `t` by deleting elements: what keeps the relative order of what is left. */
  ghost predicate IsSubsequence<T>(s: seq<T>, t: seq<T>)
    decreases |t|
  {
    if s == [] then true
    else if t == [] then false
    else (s[0] == t[0] && IsSubsequence(s[1..], t[1..])) || IsSubsequence(s, t[1..])
  }

  lemma {:induction false} SubsequenceRefl<T>(s: seq<T>)
    ensures IsSubsequence(s, s)
  {
    if s != [] {
      SubsequenceRefl(s[1..]);
    }
  }

  /** Prepending the same element to both sides keeps the subsequence relation. */
  lemma SubsequencePrepend<T>(s: seq<T>, t: seq<T>, x: T)
    requires IsSubsequence(s, t)
    ensures IsSubsequence([x] + s, [x] + t)
  {
    assert ([x] + s)[1..] == s && ([x] + t)[1..] == t;
  }

  /** A text field the search looks at, when present, contains the (already lower-cased) term after lower-casing. */
  predicate Matches(field: Option<string>, term: string) {
    field.Some? && Contains(Lower(field.value), term)
  }

  /**
   * `xs.filter(x => field(x)?.toLowerCase().includes(term))`: the elements whose field contains
   * `term`, in their original order and each as often as in `xs`; an element with no field is left out.
   */
  function FilterContains<T(!new)>(xs: seq<T>, field: T -> Option<string>, term: string): (r: seq<T>)
    ensures IsSubsequence(r, xs)
    ensures forall i :: 0 <= i < |r| ==> Matches(field(r[i]), term)
    ensures forall i :: 0 <= i < |xs| && Matches(field(xs[i]), term) ==> xs[i] in r
    ensures forall x {:trigger multiset(r)[x]} :: multiset(r)[x] == if Matches(field(x), term) then multiset(xs)[x] else 0
  {
    if xs == [] then []
    else
      var rest := FilterContains(xs[1..], field, term);
      assert xs == [xs[0]] + xs[1..];
      if Matches(field(xs[0]), term) then
        assert ([xs[0]] + rest)[1..] == rest;
        [xs[0]] + rest
      else rest
  }

  /** With the empty term every element that has the field is kept, so the result is the whole list. */
  lemma {:induction false} FilterEmptyTerm<T(!new)>(xs: seq<T>, field: T -> Option<string>)
    requires forall i :: 0 <= i < |xs| ==> field(xs[i]).Some?
    ensures FilterContains(xs, field, "") == xs
  {
    if xs != [] {
      ContainsEmpty(Lower(field(xs[0]).value));
      FilterEmptyTerm(xs[1..], field);
    }
  }

  /** Searching the result of a search with the same term changes nothing. */
  lemma {:induction false} FilterIdempotent<T(!new)>(xs: seq<T>, field: T -> Option<string>, term: string)
    ensures FilterContains(FilterContains(xs, field, term), field, term) == FilterContains(xs, field, term)
  {
    if xs != [] {
      FilterIdempotent(xs[1..], field, term);
      var rest := FilterContains(xs[1..], field, term);
      if Matches(field(xs[0]), term) {
        assert ([xs[0]] + rest)[1..] == rest;
      }
    }
  }

  /**
   * `xs.map(x => key(x) === id ? merge(x, patch) : x)`: every element whose id is `id` is
   * rewritten, every other element is kept, in place.
   */
  function MapById<T, P>(xs: seq<T>, key: T -> int, id: int, merge: (T, P) -> T, patch: P): (r: seq<T>)
    ensures |r| == |xs|
    ensures forall i :: 0 <= i < |xs| && key(xs[i]) != id ==> r[i] == xs[i]
    ensures forall i :: 0 <= i < |xs| && key(xs[i]) == id ==> r[i] == merge(xs[i], patch)
  {
    if xs == [] then []
    else [if key(xs[0]) == id then merge(xs[0], patch) else xs[0]] + MapById(xs[1..], key, id, merge, patch)
  }

  /** The merge that throws the old element away: the server's response replaces it. */
  function Replacement<T>(current: T, incoming: T): T {
    incoming
  }

  /** `xs.map(x => key(x) === id ? incoming : x)`: replace in place. */
  function ReplaceById<T>(xs: seq<T>, key: T -> int, id: int, incoming: T): (r: seq<T>)
    ensures |r| == |xs|
    ensures forall i :: 0 <= i < |xs| ==> r[i] == if key(xs[i]) == id then incoming else xs[i]
  {
    MapById(xs, key, id, Replacement, incoming)
  }

  /** Replacing in a reversed list is reversing the replaced list. */
  lemma ReplaceReverse<T>(xs: seq<T>, key: T -> int, id: int, incoming: T)
    ensures ReplaceById(Reverse(xs), key, id, incoming) == Reverse(ReplaceById(xs, key, id, incoming))
  {
    var a, b := ReplaceById(Reverse(xs), key, id, incoming), Reverse(ReplaceById(xs, key, id, incoming));
    assert forall k :: 0 <= k < |a| ==> a[k] == b[k];
  }

  /** Replacing twice with the same element is replacing once, provided the element carries the id. */
  lemma ReplaceTwice<T>(xs: seq<T>, key: T -> int, id: int, incoming: T)
    requires key(incoming) == id
    ensures ReplaceById(ReplaceById(xs, key, id, incoming), key, id, incoming) == ReplaceById(xs, key, id, incoming)
  {
    var once := ReplaceById(xs, key, id, incoming);
    var twice := ReplaceById(once, key, id, incoming);
    assert forall k :: 0 <= k < |xs| ==> twice[k] == once[k];
  }

  /** Replacing the same id in a list and in a list obtained from it by deletions keeps that relation. */
  lemma {:induction false} ReplaceKeepsSubsequence<T>(s: seq<T>, t: seq<T>, key: T -> int, id: int, incoming: T)
    requires IsSubsequence(s, t)
    ensures IsSubsequence(ReplaceById(s, key, id, incoming), ReplaceById(t, key, id, incoming))
    decreases |t|
  {
    var rs, rt := ReplaceById(s, key, id, incoming), ReplaceById(t, key, id, incoming);
    if s != [] {
      assert rt[1..] == ReplaceById(t[1..], key, id, incoming);
      if s[0] == t[0] && IsSubsequence(s[1..], t[1..]) {
        ReplaceKeepsSubsequence(s[1..], t[1..], key, id, incoming);
        assert rs[1..] == ReplaceById(s[1..], key, id, incoming);
      } else {
        ReplaceKeepsSubsequence(s, t[1..], key, id, incoming);
      }
    }
  }

  /** `xs.find(x => key(x) === id)`: the first element whose id is `id`, if there is one. */
  function FindById<T>(xs: seq<T>, key: T -> int, id: int): (r: Option<T>)
    ensures r.None? <==> forall i :: 0 <= i < |xs| ==> key(xs[i]) != id
    ensures r.Some? ==> r.value in xs && key(r.value) == id
  {
    if xs == [] then None
    else if key(xs[0]) == id then Some(xs[0])
    else FindById(xs[1..], key, id)
  }

  /** `find` returns the element at the first index carrying the id. */
  lemma {:induction false} FindByIdFirst<T>(xs: seq<T>, key: T -> int, id: int, k: nat)
    requires k < |xs| && key(xs[k]) == id
    requires forall j :: 0 <= j < k ==> key(xs[j]) != id
    ensures FindById(xs, key, id) == Some(xs[k])
  {
    if k > 0 {
      FindByIdFirst(xs[1..], key, id, k - 1);
    }
  }

  /** `xs.filter(x => key(x) !== id)`: everything except the elements carrying the id, in order. */
  function WithoutId<T>(xs: seq<T>, key: T -> int, id: int): (r: seq<T>)
    ensures IsSubsequence(r, xs)
    ensures forall i :: 0 <= i < |r| ==> key(r[i]) != id
    ensures forall i :: 0 <= i < |xs| && key(xs[i]) != id ==> xs[i] in r
  {
    if xs == [] then []
    else
      var rest := WithoutId(xs[1..], key, id);
      if key(xs[0]) != id then
        assert ([xs[0]] + rest)[1..] == rest;
        [xs[0]] + rest
      else rest
  }

  lemma {:induction false} WithoutIdAppend<T>(a: seq<T>, b: seq<T>, key: T -> int, id: int)
    ensures WithoutId(a + b, key, id) == WithoutId(a, key, id) + WithoutId(b, key, id)
  {
    if a == [] {
      assert a + b == b;
    } else {
      assert (a + b)[0] == a[0] && (a + b)[1..] == a[1..] + b;
      WithoutIdAppend(a[1..], b, key, id);
    }
  }

  lemma {:induction false} WithoutAbsentId<T>(xs: seq<T>, key: T -> int, id: int)
    requires forall i :: 0 <= i < |xs| ==> key(xs[i]) != id
    ensures WithoutId(xs, key, id) == xs
  {
    if xs != [] {
      WithoutAbsentId(xs[1..], key, id);
    }
  }

  /** Rewriting the elements that carry the id, with a merge that keeps the id, does not change what removing that id leaves. */
  lemma {:induction false} WithoutIdAfterMap<T, P>(xs: seq<T>, key: T -> int, id: int, merge: (T, P) -> T, patch: P)
    requires forall x :: key(merge(x, patch)) == key(x)
    ensures WithoutId(MapById(xs, key, id, merge, patch), key, id) == WithoutId(xs, key, id)
  {
    if xs != [] {
      var m := MapById(xs, key, id, merge, patch);
      assert m[1..] == MapById(xs[1..], key, id, merge, patch);
      WithoutIdAfterMap(xs[1..], key, id, merge, patch);
    }
  }

  /**
   * The list `[xs.find(x => key(x) === id), ...xs.filter(x => key(x) !== id)]` exactly as the
   * pages build it: the head is `None` (JavaScript's `undefined`) when no element carries the id.
   */
  function MoveToFrontAsWritten<T>(xs: seq<T>, key: T -> int, id: int): (r: (Option<T>, seq<T>))
    ensures r.0 == FindById(xs, key, id) && r.1 == WithoutId(xs, key, id)
  {
    (FindById(xs, key, id), WithoutId(xs, key, id))
  }

  /** With no element carrying the id, the list as written gains an `undefined` head in front of the unchanged list. */
  lemma MoveToFrontAsWrittenAbsent<T>(xs: seq<T>, key: T -> int, id: int)
    requires forall i :: 0 <= i < |xs| ==> key(xs[i]) != id
    ensures MoveToFrontAsWritten(xs, key, id) == (None, xs)
  {
    WithoutAbsentId(xs, key, id);
  }

  /**
   * Move-to-front: the first element carrying the id, followed by every element that does not,
   * in order; a list in which no element carries the id is left as it is.
   */
  function MoveToFront<T>(xs: seq<T>, key: T -> int, id: int): (r: seq<T>)
    ensures (forall i :: 0 <= i < |xs| ==> key(xs[i]) != id) ==> r == xs
    ensures (exists i :: 0 <= i < |xs| && key(xs[i]) == id) ==>
      |r| >= 1 && key(r[0]) == id && r[0] in xs && r[1..] == WithoutId(xs, key, id)
  {
    match FindById(xs, key, id)
    case None => WithoutAbsentId(xs, key, id); xs
    case Some(x) => [x] + WithoutId(xs, key, id)
  }

  /** Where the id occurs, the corrected list is the list as written with its head filled in. */
  lemma MoveToFrontAgrees<T>(xs: seq<T>, key: T -> int, id: int)
    requires exists i :: 0 <= i < |xs| && key(xs[i]) == id
    ensures MoveToFrontAsWritten(xs, key, id).0.Some?
    ensures MoveToFront(xs, key, id) == [MoveToFrontAsWritten(xs, key, id).0.value] + MoveToFrontAsWritten(xs, key, id).1
  {
  }

  /** A slice in which no element carries the id is left as it is. */
  lemma WithoutIdSlice<T>(xs: seq<T>, key: T -> int, id: int, lo: nat, hi: nat)
    requires lo <= hi <= |xs|
    requires forall j :: lo <= j < hi ==> key(xs[j]) != id
    ensures WithoutId(xs[lo..hi], key, id) == xs[lo..hi]
  {
    var part := xs[lo..hi];
    forall i | 0 <= i < |part|
      ensures key(part[i]) != id
    {
      assert part[i] == xs[lo + i];
    }
    WithoutAbsentId(part, key, id);
  }

  /** Removing the id from a list in which only index `k` carries it closes the gap at `k`. */
  lemma WithoutIdSingle<T>(xs: seq<T>, key: T -> int, id: int, k: nat)
    requires k < |xs| && key(xs[k]) == id
    requires forall j :: 0 <= j < |xs| && j != k ==> key(xs[j]) != id
    ensures WithoutId(xs, key, id) == xs[..k] + xs[k + 1..]
  {
    var before, after := xs[..k], xs[k + 1..];
    assert xs == before + ([xs[k]] + after);
    WithoutIdSlice(xs, key, id, 0, k);
    WithoutIdSlice(xs, key, id, k + 1, |xs|);
    assert xs[0..k] == before && xs[k + 1..|xs|] == after;
    calc {
      WithoutId(xs, key, id);
      { WithoutIdAppend(before, [xs[k]] + after, key, id); }
      WithoutId(before, key, id) + WithoutId([xs[k]] + after, key, id);
      { WithoutIdAppend([xs[k]], after, key, id); }
      WithoutId(before, key, id) + (WithoutId([xs[k]], key, id) + WithoutId(after, key, id));
      { assert WithoutId([xs[k]], key, id) == []; }
      before + ([] + after);
      { assert [] + after == after; }
      before + after;
    }
  }

  /** When index `k` holds the first element carrying the id, that element is the one moved to the front. */
  lemma MoveToFrontAt<T>(xs: seq<T>, key: T -> int, id: int, k: nat)
    requires k < |xs| && key(xs[k]) == id
    requires forall j :: 0 <= j < k ==> key(xs[j]) != id
    ensures MoveToFront(xs, key, id) == [xs[k]] + WithoutId(xs, key, id)
  {
    FindByIdFirst(xs, key, id, k);
  }

  /** With a merge that keeps the id, index `k` still holds the first element carrying it after the rewrite. */
  lemma MapByIdFirst<T, P>(xs: seq<T>, key: T -> int, id: int, merge: (T, P) -> T, patch: P, k: nat)
    requires k < |xs| && key(xs[k]) == id
    requires forall j :: 0 <= j < k ==> key(xs[j]) != id
    requires forall x :: key(merge(x, patch)) == key(x)
    ensures var m := MapById(xs, key, id, merge, patch);
      k < |m| && m[k] == merge(xs[k], patch) && key(m[k]) == id && forall j :: 0 <= j < k ==> key(m[j]) != id
  {
    var m := MapById(xs, key, id, merge, patch);
    forall j | 0 <= j < k
      ensures key(m[j]) != id
    {
      assert m[j] == xs[j];
    }
  }

  /**
   * Merge-then-move-to-front on a list in which exactly one element, at index `k`, carries the id:
   * the merged element comes first, the others follow in their old order, and the length is kept.
   */
  lemma MergeMoveToFront<T, P>(xs: seq<T>, key: T -> int, id: int, merge: (T, P) -> T, patch: P, k: nat)
    requires k < |xs| && key(xs[k]) == id
    requires forall j :: 0 <= j < |xs| && j != k ==> key(xs[j]) != id
    requires forall x :: key(merge(x, patch)) == key(x)
    ensures MoveToFront(MapById(xs, key, id, merge, patch), key, id) == [merge(xs[k], patch)] + xs[..k] + xs[k + 1..]
  {
    var m := MapById(xs, key, id, merge, patch);
    MapByIdFirst(xs, key, id, merge, patch, k);
    MoveToFrontAt(m, key, id, k);
    WithoutIdAfterMap(xs, key, id, merge, patch);
    WithoutIdSingle(xs, key, id, k);
    calc {
      MoveToFront(m, key, id);
      [m[k]] + WithoutId(m, key, id);
      [merge(xs[k], patch)] + WithoutId(xs, key, id);
      [merge(xs[k], patch)] + (xs[..k] + xs[k + 1..]);
      [merge(xs[k], patch)] + xs[..k] + xs[k + 1..];
    }
  }
}
