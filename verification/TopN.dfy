/** Bounded top-N selection with a heap that keeps the worst of the kept entries
    at its root. */
module TopN {
  import opened Basics

  datatype Entry = Entry(id: string, seqNo: int)

  /** An entry with its already parsed sort value. */
  datatype Item = Item(e: Entry, val: real)

  /** a is strictly worse than b: smaller when the largest are wanted. */
  predicate Worse(desc: bool, a: Item, b: Item) {
    if desc then a.val < b.val else a.val > b.val
  }

  function Parent(i: nat): nat
    requires i > 0
  {
    (i - 1) / 2
  }

  /** Slot i is not worse than its parent. */
  predicate Ordered(desc: bool, s: seq<Item>, i: nat)
    requires 0 < i < |s|
  {
    !Worse(desc, s[i], s[Parent(i)])
  }

  ghost predicate IsHeap(desc: bool, s: seq<Item>) {
    forall i :: 0 < i < |s| ==> Ordered(desc, s, i)
  }

  function Swap(s: seq<Item>, i: nat, j: nat): (t: seq<Item>)
    requires i < |s| && j < |s|
    ensures multiset(t) == multiset(s) && |t| == |s|
  {
    s[i := s[j]][j := s[i]]
  }

  /** The root of a heap is its worst element. */
  lemma {:induction false} RootIsWorst(desc: bool, s: seq<Item>, i: nat)
    requires IsHeap(desc, s) && i < |s|
    ensures !Worse(desc, s[i], s[0])
  {
    if i > 0 {
      assert Ordered(desc, s, i);
      RootIsWorst(desc, s, Parent(i));
    }
  }

  // ----- Sifting -------------------------------------------------------------

  /** A heap but for slot j, which may be worse than its parent; below j the
      parent of j is still respected. */
  ghost predicate HeapButUp(desc: bool, s: seq<Item>, j: nat) {
    && j < |s|
    && (forall i :: 0 < i < |s| && i != j ==> Ordered(desc, s, i))
    && (j > 0 ==> forall i :: 0 < i < |s| && Parent(i) == j ==> !Worse(desc, s[i], s[Parent(j)]))
  }

  lemma SwapUp(desc: bool, s: seq<Item>, j: nat)
    requires HeapButUp(desc, s, j) && j > 0 && Worse(desc, s[j], s[Parent(j)])
    ensures HeapButUp(desc, Swap(s, Parent(j), j), Parent(j))
  {
    var p := Parent(j);
    var t := Swap(s, p, j);
    forall i | 0 < i < |t| && i != p ensures Ordered(desc, t, i) {
      if i != j { assert Ordered(desc, s, i); }
    }
    if p > 0 {
      assert Ordered(desc, s, p);
      forall i | 0 < i < |t| && Parent(i) == p ensures !Worse(desc, t[i], t[Parent(p)]) {
        if i != j { assert Ordered(desc, s, i); }
      }
    }
  }

  /** A heap in its first n slots but for slot i, whose children may be worse than
      it; they still respect the parent of i. */
  ghost predicate HeapButDown(desc: bool, s: seq<Item>, i: nat, n: nat) {
    && n <= |s|
    && (forall k :: 0 < k < n && Parent(k) != i ==> Ordered(desc, s, k))
    && (i > 0 ==> forall k :: 0 < k < n && Parent(k) == i ==> !Worse(desc, s[k], s[Parent(i)]))
  }

  function WorseChild(desc: bool, s: seq<Item>, i: nat, n: nat): nat
    requires 2 * i + 1 < n <= |s|
  {
    if 2 * i + 2 < n && Worse(desc, s[2 * i + 2], s[2 * i + 1]) then 2 * i + 2 else 2 * i + 1
  }

  lemma SwapDownOrdered(desc: bool, s: seq<Item>, i: nat, n: nat, k: nat)
    requires HeapButDown(desc, s, i, n) && 2 * i + 1 < n && 0 < k < n && Parent(k) != WorseChild(desc, s, i, n)
    requires Worse(desc, s[WorseChild(desc, s, i, n)], s[i])
    ensures Ordered(desc, Swap(s, i, WorseChild(desc, s, i, n)), k)
  {
    var c := WorseChild(desc, s, i, n);
    if Parent(k) == i {
      assert k == 2 * i + 1 || k == 2 * i + 2;
    } else if k == i {
      assert !Worse(desc, s[c], s[Parent(i)]);
    } else {
      assert Ordered(desc, s, k);
    }
  }

  lemma SwapDownBelow(desc: bool, s: seq<Item>, i: nat, n: nat, k: nat)
    requires HeapButDown(desc, s, i, n) && 2 * i + 1 < n && 0 < k < n && Parent(k) == WorseChild(desc, s, i, n)
    requires Worse(desc, s[WorseChild(desc, s, i, n)], s[i])
    ensures var c := WorseChild(desc, s, i, n); !Worse(desc, Swap(s, i, c)[k], Swap(s, i, c)[Parent(c)])
  {
    assert Ordered(desc, s, k);
  }

  lemma SwapDown(desc: bool, s: seq<Item>, i: nat, n: nat)
    requires HeapButDown(desc, s, i, n) && 2 * i + 1 < n
    requires Worse(desc, s[WorseChild(desc, s, i, n)], s[i])
    ensures HeapButDown(desc, Swap(s, i, WorseChild(desc, s, i, n)), WorseChild(desc, s, i, n), n)
  {
    var c := WorseChild(desc, s, i, n);
    var t := Swap(s, i, c);
    forall k | 0 < k < n && Parent(k) != c ensures Ordered(desc, t, k) { SwapDownOrdered(desc, s, i, n, k); }
    forall k | 0 < k < n && Parent(k) == c ensures !Worse(desc, t[k], t[Parent(c)]) { SwapDownBelow(desc, s, i, n, k); }
  }

  lemma DownDone(desc: bool, s: seq<Item>, i: nat, n: nat)
    requires HeapButDown(desc, s, i, n)
    requires 2 * i + 1 >= n || !Worse(desc, s[WorseChild(desc, s, i, n)], s[i])
    ensures IsHeap(desc, s[..n])
  {
    forall k | 0 < k < n ensures Ordered(desc, s[..n], k) {
      DownDoneAt(desc, s, i, n, k);
      PrefixOrdered(desc, s, n, k);
    }
  }

  lemma SwapKeepsRest(s: seq<Item>, i: nat, j: nat, n: nat)
    requires i < n <= |s| && j < n
    ensures Swap(s, i, j)[n..] == s[n..]
  {
  }

  lemma DownDoneAt(desc: bool, s: seq<Item>, i: nat, n: nat, k: nat)
    requires HeapButDown(desc, s, i, n) && 0 < k < n
    requires 2 * i + 1 >= n || !Worse(desc, s[WorseChild(desc, s, i, n)], s[i])
    ensures Ordered(desc, s, k)
  {
    if Parent(k) == i {
      assert k == 2 * i + 1 || k == 2 * i + 2;
    }
  }

  lemma PrefixOrdered(desc: bool, s: seq<Item>, n: nat, k: nat)
    requires 0 < k < n <= |s| && Ordered(desc, s, k)
    ensures Ordered(desc, s[..n], k)
  {
    assert s[..n][k] == s[k] && s[..n][Parent(k)] == s[Parent(k)];
  }

  // ----- The heap as it is kept ----------------------------------------------

  class SortHeap {
    var items: seq<Item>
    const desc: bool

    constructor (d: bool)
      ensures desc == d && items == []
    {
      desc, items := d, [];
    }

    /** Move the last item up to its place. */
    method Push(x: Item)
      requires IsHeap(desc, items)
      modifies this
      ensures IsHeap(desc, items) && multiset(items) == multiset(old(items)) + multiset{x} && |items| == |old(items)| + 1
    {
      items := items + [x];
      var j: nat := |items| - 1;
      forall i | 0 < i < |items| && i != j ensures Ordered(desc, items, i) { assert Ordered(desc, old(items), i); }
      while j > 0 && Worse(desc, items[j], items[Parent(j)])
        invariant HeapButUp(desc, items, j) && |items| == |old(items)| + 1
        invariant multiset(items) == multiset(old(items)) + multiset{x}
        decreases j
      {
        SwapUp(desc, items, j);
        items, j := Swap(items, Parent(j), j), Parent(j);
      }
      forall i | 0 < i < |items| ensures Ordered(desc, items, i) {}
    }

    /** Move the root of the first n items down to its place. */
    method Down(n: nat)
      requires HeapButDown(desc, items, 0, n)
      modifies this
      ensures n <= |items| == |old(items)| && IsHeap(desc, items[..n])
      ensures multiset(items) == multiset(old(items)) && items[n..] == old(items)[n..]
    {
      var i := 0;
      while 2 * i + 1 < n && Worse(desc, items[WorseChild(desc, items, i, n)], items[i])
        invariant HeapButDown(desc, items, i, n) && |items| == |old(items)|
        invariant multiset(items) == multiset(old(items)) && items[n..] == old(items)[n..]
        decreases n - i
      {
        var c := WorseChild(desc, items, i, n);
        SwapDown(desc, items, i, n);
        SwapKeepsRest(items, i, c, n);
        items, i := Swap(items, i, c), c;
      }
      DownDone(desc, items, i, n);
    }

    /** Replace the root and restore the order. */
    method ReplaceRoot(x: Item)
      requires IsHeap(desc, items) && items != []
      modifies this
      ensures IsHeap(desc, items) && |items| == |old(items)|
      ensures multiset(items) == multiset(old(items)) - multiset{old(items)[0]} + multiset{x}
    {
      ghost var s := items;
      items := items[0 := x];
      assert s == [s[0]] + s[1..] && items == [x] + s[1..];
      forall k | 0 < k < |items| && Parent(k) != 0 ensures Ordered(desc, items, k) { assert Ordered(desc, s, k); }
      Down(|items|);
      assert items[..|items|] == items;
    }

    /** Take the worst item. */
    method Pop() returns (x: Item)
      requires IsHeap(desc, items) && items != []
      modifies this
      ensures x == old(items)[0]
      ensures IsHeap(desc, items) && |items| == |old(items)| - 1
      ensures multiset(old(items)) == multiset(items) + multiset{x}
    {
      var n := |items| - 1;
      ghost var s := items;
      items := Swap(items, 0, n);
      forall k | 0 < k < n && Parent(k) != 0 ensures Ordered(desc, items, k) { assert Ordered(desc, s, k); }
      ghost var t := items;
      Down(n);
      assert items[n..] == t[n..] == [s[0]];
      assert items == items[..n] + [s[0]];
      x := items[n];
      items := items[..n];
    }
  }

  // ----- Selection -----------------------------------------------------------

  /** The entries with a numeric value, in input order. */
  function Parsable(entries: seq<Entry>, get: Entry -> Option<real>): seq<Item> {
    if entries == [] then []
    else
      var before, last := Parsable(entries[..|entries| - 1], get), entries[|entries| - 1];
      match get(last)
      case Some(v) => before + [Item(last, v)]
      case None => before
  }

  /** Exactly the entries with a number, as often as they came, each with its own. */
  lemma {:induction false} ParsableCounts(entries: seq<Entry>, get: Entry -> Option<real>, x: Item)
    ensures multiset(Parsable(entries, get))[x] == if get(x.e) == Some(x.val) then multiset(entries)[x.e] else 0
  {
    if entries != [] {
      var init, last := entries[..|entries| - 1], entries[|entries| - 1];
      ParsableCounts(init, get, x);
      assert entries == init + [last];
    }
  }

  /** kept is the best of seen: nothing left out is strictly better than anything
      kept, better being larger or smaller as asked. */
  ghost predicate BestOf(desc: bool, kept: multiset<Item>, seen: multiset<Item>) {
    && kept <= seen
    && forall x, y :: x in kept && y in seen - kept ==> if desc then x.val >= y.val else x.val <= y.val
  }

  ghost predicate RootOf(desc: bool, kept: multiset<Item>, root: Item) {
    root in kept && forall x :: x in kept ==> !Worse(desc, x, root)
  }

  lemma KeepAll(desc: bool, kept: multiset<Item>, seen: multiset<Item>, v: Item)
    requires kept == seen
    ensures BestOf(desc, kept + multiset{v}, seen + multiset{v})
  {
    assert (seen + multiset{v}) - (kept + multiset{v}) == multiset{};
  }

  lemma KeepOld(desc: bool, kept: multiset<Item>, seen: multiset<Item>, root: Item, v: Item)
    requires BestOf(desc, kept, seen) && RootOf(desc, kept, root) && !Worse(desc, root, v)
    ensures BestOf(desc, kept, seen + multiset{v})
  {
    forall x, y | x in kept && y in seen + multiset{v} - kept ensures !Worse(desc, x, y) {
      if y != v { assert y in seen - kept; }
    }
  }

  lemma KeepNew(desc: bool, kept: multiset<Item>, seen: multiset<Item>, root: Item, v: Item)
    requires BestOf(desc, kept, seen) && RootOf(desc, kept, root) && Worse(desc, root, v)
    ensures BestOf(desc, kept - multiset{root} + multiset{v}, seen + multiset{v})
  {
    var kept' := kept - multiset{root} + multiset{v};
    forall x, y | x in kept' && y in seen + multiset{v} - kept' ensures !Worse(desc, x, y) {
      assert x == v || x in kept;
      if y != root {
        assert y in seen - kept;
        assert !Worse(desc, root, y);
      }
    }
  }

  lemma HeapRoot(desc: bool, s: seq<Item>)
    requires IsHeap(desc, s) && s != []
    ensures RootOf(desc, multiset(s), s[0])
  {
    forall x | x in multiset(s) ensures !Worse(desc, x, s[0]) {
      var i :| 0 <= i < |s| && s[i] == x;
      RootIsWorst(desc, s, i);
    }
  }

  /** First pass: a heap of the best limit items seen so far. */
  method Collect(entries: seq<Entry>, get: Entry -> Option<real>, desc: bool, limit: nat) returns (h: SortHeap)
    requires limit >= 1
    ensures fresh(h) && h.desc == desc && IsHeap(desc, h.items)
    ensures |h.items| == if |Parsable(entries, get)| < limit then |Parsable(entries, get)| else limit
    ensures BestOf(desc, multiset(h.items), multiset(Parsable(entries, get)))
  {
    h := new SortHeap(desc);
    for i := 0 to |entries|
      invariant fresh(h) && h.desc == desc && IsHeap(desc, h.items)
      invariant |h.items| == if |Parsable(entries[..i], get)| < limit then |Parsable(entries[..i], get)| else limit
      invariant |Parsable(entries[..i], get)| < limit ==> multiset(h.items) == multiset(Parsable(entries[..i], get))
      invariant BestOf(desc, multiset(h.items), multiset(Parsable(entries[..i], get)))
    {
      ghost var seen := Parsable(entries[..i], get);
      assert entries[..i + 1][..i] == entries[..i];
      var parsed := get(entries[i]);
      if parsed.None? {
        continue;
      }
      var v := Item(entries[i], parsed.value);
      assert multiset(seen + [v]) == multiset(seen) + multiset{v};
      if |h.items| < limit {
        KeepAll(desc, multiset(h.items), multiset(seen), v);
        h.Push(v);
      } else {
        HeapRoot(desc, h.items);
        if (desc && v.val > h.items[0].val) || (!desc && v.val < h.items[0].val) {
          KeepNew(desc, multiset(h.items), multiset(seen), h.items[0], v);
          h.ReplaceRoot(v);
        } else {
          KeepOld(desc, multiset(h.items), multiset(seen), h.items[0], v);
        }
      }
    }
    assert entries[..|entries|] == entries;
  }

  /** Largest first, or smallest first. */
  ghost predicate BestFirst(desc: bool, s: seq<Item>) {
    forall i, j :: 0 <= i < j < |s| ==> if desc then s[i].val >= s[j].val else s[i].val <= s[j].val
  }

  /** Nothing in rest is worse than anything in out. */
  ghost predicate Above(desc: bool, rest: multiset<Item>, out: seq<Item>) {
    forall x, k :: x in rest && 0 <= k < |out| ==> !Worse(desc, x, out[k])
  }

  /** Taking the worst of what remains and putting it in front. */
  lemma PrependWorst(desc: bool, rest: multiset<Item>, x: Item, out: seq<Item>)
    requires RootOf(desc, rest + multiset{x}, x) && Above(desc, rest + multiset{x}, out) && BestFirst(desc, out)
    ensures Above(desc, rest, [x] + out) && BestFirst(desc, [x] + out)
    ensures multiset([x] + out) == multiset{x} + multiset(out)
  {
    var out' := [x] + out;
    assert x in rest + multiset{x};
    forall y, k | y in rest && 0 <= k < |out'| ensures !Worse(desc, y, out'[k]) {
      assert y in rest + multiset{x};
      if k > 0 { assert out'[k] == out[k - 1]; }
    }
    forall i, j | 0 <= i < j < |out'| ensures !Worse(desc, out'[i], out'[j]) {
      assert out'[j] == out[j - 1];
      if i > 0 { assert out'[i] == out[i - 1]; }
    }
  }

  /** Up to limit entries with their sort value, best first; a sub-multiset of the
      parsable input of the right size; nothing left out is strictly better than
      anything returned. */
  method TopNBySort(entries: seq<Entry>, get: Entry -> Option<real>, desc: bool, limit: nat) returns (out: seq<Item>)
    requires limit >= 1
    ensures |out| == if |Parsable(entries, get)| < limit then |Parsable(entries, get)| else limit
    ensures BestOf(desc, multiset(out), multiset(Parsable(entries, get)))
    ensures BestFirst(desc, out)
  {
    var h := Collect(entries, get, desc, limit);
    ghost var all, n := multiset(h.items), |h.items|;
    out := [];
    while |h.items| > 0
      invariant IsHeap(desc, h.items) && h.desc == desc && fresh(h)
      invariant multiset(h.items) + multiset(out) == all && |h.items| + |out| == n
      invariant BestFirst(desc, out) && Above(desc, multiset(h.items), out)
      decreases |h.items|
    {
      HeapRoot(desc, h.items);
      var x := h.Pop();
      PrependWorst(desc, multiset(h.items), x, out);
      out := [x] + out;
    }
    assert h.items == [];
    assert multiset(out) == all;
  }
}
