/** Navigation: first-level lookups by tag over a sequence of sibling nodes
    and over the direct children of one node.  None of them descends further. */
module Navigation {
  import opened Wrappers
  import opened BerTlv
  import opened Tags
  import opened Decoder

  /** The nodes of `ts` whose tag equals `tag`, in their original order. */
  function Filter(ts: seq<Tlv>, tag: Tag): (r: seq<Tlv>)
    ensures |r| <= |ts|
    ensures forall x | x in r :: x in ts && x.tag == tag
  {
    if ts == [] then [] else (if ts[0].tag == tag then [ts[0]] else []) + Filter(ts[1..], tag)
  }

  /** The first node of `s`, if any: the source's nil-or-address result. */
  function FirstOf(s: seq<Tlv>): (r: Option<Tlv>)
    ensures r.None? <==> s == []
    ensures r.Some? ==> r.value == s[0]
  {
    if s == [] then None else Some(s[0])
  }

  /** Filtering distributes over concatenation; with the one-node cases
      (a match is kept, anything else dropped) this pins Filter down as the
      order-preserving filter. */
  lemma {:induction false} FilterConcat(a: seq<Tlv>, c: seq<Tlv>, tag: Tag)
    ensures Filter(a + c, tag) == Filter(a, tag) + Filter(c, tag)
    decreases |a|
  {
    if a == [] {
      assert a + c == c;
    } else {
      assert (a + c)[1..] == a[1..] + c;
      FilterConcat(a[1..], c, tag);
    }
  }

  /** Every matching node is kept. */
  lemma {:induction false} FilterKeepsMatches(ts: seq<Tlv>, tag: Tag, i: nat)
    requires i < |ts| && ts[i].tag == tag
    ensures ts[i] in Filter(ts, tag)
    decreases i
  {
    if i > 0 {
      assert ts[1..][i - 1] == ts[i];
      FilterKeepsMatches(ts[1..], tag, i - 1);
    }
  }

  /** Nothing matches exactly when the filter is empty. */
  lemma {:induction false} FilterEmptyIffNoMatch(ts: seq<Tlv>, tag: Tag)
    ensures Filter(ts, tag) == [] <==> forall i | 0 <= i < |ts| :: ts[i].tag != tag
    decreases |ts|
  {
    if ts != [] {
      FilterEmptyIffNoMatch(ts[1..], tag);
      assert forall i | 1 <= i < |ts| :: ts[i] == ts[1..][i - 1];
    }
  }

  /** The first element of the filter is the earliest match. */
  lemma {:induction false} FilterStartsWithEarliestMatch(ts: seq<Tlv>, tag: Tag, i: nat)
    requires i < |ts| && ts[i].tag == tag
    requires forall j | 0 <= j < i :: ts[j].tag != tag
    ensures FirstOf(Filter(ts, tag)) == Some(ts[i])
    decreases i
  {
    if i > 0 {
      assert ts[1..][i - 1] == ts[i];
      FilterStartsWithEarliestMatch(ts[1..], tag, i - 1);
    }
  }

  /** One step of the filter from position `i`. */
  lemma {:induction false} FilterStep(ts: seq<Tlv>, tag: Tag, i: nat)
    requires i < |ts|
    ensures Filter(ts[i..], tag) == (if ts[i].tag == tag then [ts[i]] else []) + Filter(ts[i + 1..], tag)
  {
    assert ts[i..][1..] == ts[i + 1..];
  }

  /** BerTLVs.FindAllWithTag: all first-level nodes with the tag, in order
      (nil, that is empty, when none matches). */
  method FindAllWithTag(ts: seq<Tlv>, tag: Tag) returns (r: seq<Tlv>)
    ensures r == Filter(ts, tag)
  {
    r := [];
    var i := 0;
    while i < |ts|
      invariant 0 <= i <= |ts|
      invariant Filter(ts, tag) == r + Filter(ts[i..], tag)
    {
      FilterStep(ts, tag, i);
      if ts[i].tag == tag {
        assert Filter(ts, tag) == (r + [ts[i]]) + Filter(ts[i + 1..], tag) by {
          assert r + ([ts[i]] + Filter(ts[i + 1..], tag)) == (r + [ts[i]]) + Filter(ts[i + 1..], tag);
        }
        r := r + [ts[i]];
      }
      i := i + 1;
    }
    assert ts[i..] == [] && r + [] == r;
  }

  /** BerTLVs.FindFirstWithTag: the first first-level node with the tag. */
  method FindFirstWithTag(ts: seq<Tlv>, tag: Tag) returns (r: Option<Tlv>)
    ensures r == FirstOf(Filter(ts, tag))
  {
    var i := 0;
    while i < |ts|
      invariant 0 <= i <= |ts|
      invariant Filter(ts, tag) == Filter(ts[i..], tag)
    {
      assert ts[i..][1..] == ts[i + 1..];
      if ts[i].tag == tag {
        return Some(ts[i]);
      }
      i := i + 1;
    }
    assert ts[i..] == [];
    return None;
  }

  /** BerTLV.Children: with an empty filter the stored children as they are;
      otherwise nothing for a primitive node, and the matching direct
      children in order for a constructed one. */
  method Children(t: Tlv, tag: Tag) returns (r: seq<Tlv>)
    ensures |tag| == 0 ==> r == t.children
    ensures |tag| > 0 && !IsConstructed(t.tag) ==> r == []
    ensures |tag| > 0 && IsConstructed(t.tag) ==> r == Filter(t.children, tag)
  {
    if |tag| == 0 {
      return t.children;
    }
    if !IsConstructed(t.tag) {
      return [];
    }
    var children := t.children;
    r := [];
    var i := 0;
    while i < |children|
      invariant 0 <= i <= |children|
      invariant Filter(children, tag) == r + Filter(children[i..], tag)
    {
      FilterStep(children, tag, i);
      if children[i].tag == tag {
        assert Filter(children, tag) == (r + [children[i]]) + Filter(children[i + 1..], tag) by {
          assert r + ([children[i]] + Filter(children[i + 1..], tag))
              == (r + [children[i]]) + Filter(children[i + 1..], tag);
        }
        r := r + [children[i]];
      }
      i := i + 1;
    }
    assert children[i..] == [] && r + [] == r;
  }

  /** BerTLV.FirstChild: the first of what Children returns for the same
      filter, or none. */
  method FirstChild(t: Tlv, tag: Tag) returns (r: Option<Tlv>)
    ensures |tag| == 0 ==> r == FirstOf(t.children)
    ensures |tag| > 0 && !IsConstructed(t.tag) ==> r == None
    ensures |tag| > 0 && IsConstructed(t.tag) ==> r == FirstOf(Filter(t.children, tag))
  {
    if |tag| == 0 && |t.children| != 0 {
      return Some(t.children[0]);
    }
    if !IsConstructed(t.tag) {
      return None;
    }
    var i := 0;
    while i < |t.children|
      invariant 0 <= i <= |t.children|
      invariant Filter(t.children, tag) == Filter(t.children[i..], tag)
    {
      assert t.children[i..][1..] == t.children[i + 1..];
      if t.children[i].tag == tag {
        return Some(t.children[i]);
      }
      i := i + 1;
    }
    assert t.children[i..] == [];
    return None;
  }

  /** A decoded primitive node has no children, so on decoded nodes the
      nil that Children and FirstChild return for primitive tags is what
      filtering the stored children gives as well. */
  lemma {:induction false} PrimitiveNodeHasNoChildren(t: Tlv, tag: Tag)
    requires WellFormed(t) && !IsConstructed(t.tag)
    ensures t.children == [] && Filter(t.children, tag) == []
  {
  }
}
