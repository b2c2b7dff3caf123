/** Small generic building blocks shared by the card and the documentation page:
    an optional value, JavaScript's Array.prototype.find, and a filter followed by a map. */
module Common {

  datatype Option<+T> = None | Some(value: T)

  /** Index of the first element of s that satisfies p, as Array.prototype.find visits them;
      None when no element does. */
  function FindFirst<T>(s: seq<T>, p: T -> bool): (r: Option<nat>)
    ensures r.Some? ==> r.value < |s| && p(s[r.value])
    ensures r.Some? ==> forall j :: 0 <= j < r.value ==> !p(s[j])
    ensures r.None? <==> forall j :: 0 <= j < |s| ==> !p(s[j])
  {
    if s == [] then None
    else if p(s[0]) then Some(0)
    else
      match FindFirst(s[1..], p)
      case None =>
        assert forall j :: 1 <= j < |s| ==> s[j] == s[1..][j - 1];
        None
      case Some(i) =>
        assert forall j :: 1 <= j < i + 1 ==> s[j] == s[1..][j - 1];
        Some(i + 1)
  }

  /** s.filter(keep).map(f): the images under f of the elements that keep selects, in order. */
  function FilterMap<A, B>(s: seq<A>, keep: A -> bool, f: A -> B): (r: seq<B>)
    ensures |r| <= |s|
  {
    if s == [] then []
    else if keep(s[0]) then [f(s[0])] + FilterMap(s[1..], keep, f)
    else FilterMap(s[1..], keep, f)
  }

  /** The positions in s[from..] whose elements keep selects, in increasing order. */
  function KeptFrom<A>(s: seq<A>, keep: A -> bool, from: nat): (ks: seq<nat>)
    requires from <= |s|
    ensures forall k :: 0 <= k < |ks| ==> from <= ks[k] < |s| && keep(s[ks[k]])
    ensures forall k, l :: 0 <= k < l < |ks| ==> ks[k] < ks[l]
    ensures forall i :: from <= i < |s| && keep(s[i]) ==> i in ks
    decreases |s| - from
  {
    if from == |s| then []
    else if keep(s[from]) then [from] + KeptFrom(s, keep, from + 1)
    else KeptFrom(s, keep, from + 1)
  }

  /** FilterMap is exactly f applied to the selected positions, in their original order. */
  lemma {:induction false} FilterMapSelects<A, B>(s: seq<A>, keep: A -> bool, f: A -> B, from: nat)
    requires from <= |s|
    ensures var r, ks := FilterMap(s[from..], keep, f), KeptFrom(s, keep, from);
      |r| == |ks| && forall k :: 0 <= k < |ks| ==> r[k] == f(s[ks[k]])
    decreases |s| - from
  {
    if from < |s| {
      assert s[from..][0] == s[from];
      assert s[from..][1..] == s[from + 1..];
      FilterMapSelects(s, keep, f, from + 1);
    }
  }

  /** Filtering and mapping a concatenation is the concatenation of the two results. */
  lemma {:induction false} FilterMapAppend<A, B>(a: seq<A>, b: seq<A>, keep: A -> bool, f: A -> B)
    ensures FilterMap(a + b, keep, f) == FilterMap(a, keep, f) + FilterMap(b, keep, f)
  {
    if a != [] {
      assert (a + b)[0] == a[0];
      assert (a + b)[1..] == a[1..] + b;
      FilterMapAppend(a[1..], b, keep, f);
    } else {
      assert a + b == b;
    }
  }

  /** The first image FilterMap produces is the image of the first selected element. */
  lemma {:induction false} FilterMapHead<A, B>(s: seq<A>, keep: A -> bool, f: A -> B)
    ensures FindFirst(s, keep).None? <==> FilterMap(s, keep, f) == []
    ensures FindFirst(s, keep).Some? ==>
      FilterMap(s, keep, f)[0] == f(s[FindFirst(s, keep).value])
  {
    if s != [] && !keep(s[0]) {
      FilterMapHead(s[1..], keep, f);
    }
  }
}
