/**
 Run-length edge lists: what the `la_edges` frames carry. An edge (i, w) says that the word is w from
 sample i until the next edge.
 */
module RunLength {

  datatype Edge = Edge(index: nat, word: nat)

  // The decoder's view: the word of the last edge at or before sample i, -1 when there is none.
  ghost function ValueAt(edges: seq<Edge>, i: int): int {
    if edges == [] then -1
    else
      var e := edges[|edges| - 1];
      if e.index <= i then e.word else ValueAt(edges[..|edges| - 1], i)
  }

  // The sender's carry (`la_last`): the last word on the wire, -1 when there is none.
  function LastWord(edges: seq<Edge>): int {
    if edges == [] then -1 else edges[|edges| - 1].word
  }

  // Strictly increasing indices inside [lo, hi), and every edge changes the word.
  ghost predicate Canonical(edges: seq<Edge>, lo: nat, hi: nat) {
    && (edges == [] <==> lo == hi)
    && (edges != [] ==> edges[0].index == lo && edges[|edges| - 1].index < hi)
    && (forall a, b :: 0 <= a < b < |edges| ==> edges[a].index < edges[b].index)
    && (forall a :: 0 < a < |edges| ==> edges[a - 1].word != edges[a].word)
  }

  // `edges` is the run-length form of s[lo..hi].
  ghost predicate Encodes(edges: seq<Edge>, s: seq<nat>, lo: nat, hi: nat) {
    && lo <= hi <= |s|
    && Canonical(edges, lo, hi)
    && forall i :: lo <= i < hi ==> ValueAt(edges, i) == s[i]
  }

  // Sending one more run: the word w holds on [p, q), and its edge goes out only when it changes.
  ghost function Extended(edges: seq<Edge>, p: nat, w: nat): seq<Edge> {
    if LastWord(edges) == w then edges else edges + [Edge(p, w)]
  }

  lemma ValueAtPast(edges: seq<Edge>, e: Edge, i: int)
    ensures i < e.index ==> ValueAt(edges + [e], i) == ValueAt(edges, i)
    ensures e.index <= i ==> ValueAt(edges + [e], i) == e.word
  {
    assert (edges + [e])[..|edges|] == edges;
  }

  /** The step both read-back paths repeat: covering one more run of equal words keeps the list the
      run-length form of everything covered so far. */
  lemma ExtendEncodes(edges: seq<Edge>, s: seq<nat>, lo: nat, p: nat, q: nat, w: nat)
    requires Encodes(edges, s, lo, p)
    requires p < q <= |s|
    requires forall i :: p <= i < q ==> s[i] == w
    ensures Encodes(Extended(edges, p, w), s, lo, q)
    ensures LastWord(Extended(edges, p, w)) == w
  {
    var out := Extended(edges, p, w);
    forall i | lo <= i < q
      ensures ValueAt(out, i) == s[i]
    {
      ValueAtPast(edges, Edge(p, w), i);
    }
  }

  /** The frames carry no choice: any two run-length forms of the same samples are the same list. */
  lemma {:induction false} EncodingUnique(a: seq<Edge>, b: seq<Edge>, s: seq<nat>, lo: nat, hi: nat)
    requires Encodes(a, s, lo, hi) && Encodes(b, s, lo, hi)
    ensures a == b
    decreases hi
  {
    if lo < hi {
      LastEdgeIsLastChange(a, b, s, lo, hi);
      LastEdgeIsLastChange(b, a, s, lo, hi);
      var p := a[|a| - 1].index;
      var a', b' := a[..|a| - 1], b[..|b| - 1];
      assert ValueAt(a, hi - 1) == ValueAt(b, hi - 1);
      DropLast(a, s, lo, hi);
      DropLast(b, s, lo, hi);
      EncodingUnique(a', b', s, lo, p);
      assert a == a' + [a[|a| - 1]] && b == b' + [b[|b| - 1]];
    }
  }

  lemma LastEdgeIsLastChange(a: seq<Edge>, b: seq<Edge>, s: seq<nat>, lo: nat, hi: nat)
    requires Encodes(a, s, lo, hi) && Encodes(b, s, lo, hi) && lo < hi
    ensures a[|a| - 1].index <= b[|b| - 1].index
  {
    var p, q := a[|a| - 1].index, b[|b| - 1].index;
    if q < p {
      var a' := a[..|a| - 1];
      assert |a| > 1;
      assert a'[|a'| - 1].index <= p - 1;
      assert ValueAt(a, p - 1) == a[|a| - 2].word;
      assert ValueAt(b, hi - 1) == ValueAt(b, p - 1);
    }
  }

  lemma DropLast(a: seq<Edge>, s: seq<nat>, lo: nat, hi: nat)
    requires Encodes(a, s, lo, hi) && lo < hi
    ensures Encodes(a[..|a| - 1], s, lo, a[|a| - 1].index)
  {
    var a', p := a[..|a| - 1], a[|a| - 1].index;
    assert a == a' + [a[|a| - 1]];
    forall i | lo <= i < p
      ensures ValueAt(a', i) == s[i]
    {
      ValueAtPast(a', a[|a| - 1], i);
    }
  }

  /** Joining a received prefix with a resumed tail: the tail starts with a fresh edge at `mid`, and the
      decoder reads the whole capture from the two lists laid end to end. */
  lemma {:induction false} JoinDecodes(a: seq<Edge>, b: seq<Edge>, s: seq<nat>, lo: nat, mid: nat, hi: nat)
    requires Encodes(a, s, lo, mid) && Encodes(b, s, mid, hi)
    ensures forall i :: lo <= i < hi ==> ValueAt(a + b, i) == s[i]
  {
    forall i | lo <= i < hi
      ensures ValueAt(a + b, i) == s[i]
    {
      JoinValue(a, b, i);
      if i < mid {
        assert forall e :: e in b ==> i < e.index;
        NoneBefore(b, i);
      } else {
        OneBefore(b, i);
      }
    }
  }

  lemma {:induction false} JoinValue(a: seq<Edge>, b: seq<Edge>, i: int)
    ensures ValueAt(a + b, i) == if ValueAt(b, i) != -1 then ValueAt(b, i) else ValueAt(a, i)
    decreases |b|
  {
    if b == [] {
      assert a + b == a;
    } else {
      var b' := b[..|b| - 1];
      assert a + b == (a + b') + [b[|b| - 1]];
      ValueAtPast(a + b', b[|b| - 1], i);
      JoinValue(a, b', i);
    }
  }

  lemma NoneBefore(b: seq<Edge>, i: int)
    requires forall e :: e in b ==> i < e.index
    ensures ValueAt(b, i) == -1
  {
    if b != [] {
      NoneBefore(b[..|b| - 1], i);
    }
  }

  lemma OneBefore(b: seq<Edge>, i: int)
    requires b != [] && b[0].index <= i
    ensures ValueAt(b, i) != -1
  {
    if |b| > 1 {
      OneBefore(b[..|b| - 1], i);
    }
  }
}
