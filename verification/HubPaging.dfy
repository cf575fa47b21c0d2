/** Walking back through the ring in pages: which entries a page holds, and what
    a client that pages with the last sequence number it saw gets to see. */
module HubPaging {
  import opened Basics
  import S = HubStore

  type Entry = S.Entry

  /** A query over a newest-first snapshot. A cursor applies or not by its own
      flag, because an empty anchor and sequence number 0 are legal cursors. */
  datatype Query = Query(anchor: Option<string>, beforeSeq: Option<int>, match_: Option<Entry -> bool>)

  predicate Wanted(q: Query, e: Entry) {
    && (q.beforeSeq.Some? ==> e.seqNo < q.beforeSeq.value)
    && (q.match_.Some? ==> q.match_.value(e))
  }

  /** The anchor, if asked for, lies strictly before index i. */
  predicate PastAnchor(entries: seq<Entry>, q: Query, i: nat)
    requires i <= |entries|
  {
    q.anchor.Some? ==> exists j :: 0 <= j < i && entries[j].id == q.anchor.value
  }

  /** The indices below n that answer the query, in order. */
  function Hits(entries: seq<Entry>, q: Query, n: nat): (r: seq<nat>)
    requires n <= |entries|
    ensures forall k :: 0 <= k < |r| ==> r[k] < n
  {
    if n == 0 then []
    else
      var before := Hits(entries, q, n - 1);
      if PastAnchor(entries, q, n - 1) && Wanted(q, entries[n - 1]) then before + [n - 1] else before
  }

  /** A page never comes back empty-handed for its limit alone: the limit is
      tested after an entry was taken. */
  function PageSize(limit: nat): nat { if limit == 0 then 1 else limit }

  function Front<T>(s: seq<T>, n: nat): seq<T> { if |s| <= n then s else s[..n] }

  lemma {:induction false} HitsGrow(entries: seq<Entry>, q: Query, m: nat, n: nat)
    requires m <= n <= |entries|
    ensures Hits(entries, q, m) <= Hits(entries, q, n)
  {
    if m < n { HitsGrow(entries, q, m, n - 1); }
  }

  /** Entry i answers the query: it lies past the anchor and below the cursor, as far
      as these are asked for, and it matches. */
  ghost predicate Answers(entries: seq<Entry>, q: Query, i: nat) {
    && i < |entries|
    && (q.anchor.Some? ==> exists j :: 0 <= j < i && entries[j].id == q.anchor.value)
    && (q.beforeSeq.Some? ==> entries[i].seqNo < q.beforeSeq.value)
    && (q.match_.Some? ==> q.match_.value(entries[i]))
  }

  lemma {:induction false} HitsAnswer(entries: seq<Entry>, q: Query, n: nat)
    requires n <= |entries|
    ensures var r := Hits(entries, q, n);
            && (forall i, j :: 0 <= i < j < |r| ==> r[i] < r[j])
            && (forall i: nat :: i in r <==> i < n && Answers(entries, q, i))
  {
    if n > 0 { HitsAnswer(entries, q, n - 1); }
  }

  /** A page is the first answers in order: as many as there are, or the limit, which
      is at least one. */
  ghost predicate FirstAnswers(entries: seq<Entry>, q: Query, limit: nat, out: seq<nat>) {
    && (forall i, j :: 0 <= i < j < |out| ==> out[i] < out[j])
    && (forall i :: i in out ==> Answers(entries, q, i))
    && |out| <= (if limit == 0 then 1 else limit)
    && (forall i: nat :: Answers(entries, q, i) && i !in out ==>
          |out| == (if limit == 0 then 1 else limit) && forall k :: 0 <= k < |out| ==> out[k] < i)
  }

  lemma FrontAnswers(entries: seq<Entry>, q: Query, limit: nat)
    ensures FirstAnswers(entries, q, limit, Front(Hits(entries, q, |entries|), PageSize(limit)))
  {
    var all := Hits(entries, q, |entries|);
    var out := Front(all, PageSize(limit));
    HitsAnswer(entries, q, |entries|);
    forall i: nat | Answers(entries, q, i) && i !in out
      ensures |out| == PageSize(limit) && forall k :: 0 <= k < |out| ==> out[k] < i
    {
      var m :| 0 <= m < |all| && all[m] == i;
      assert out == all[..|out|];
    }
  }

  method Page(entries: seq<Entry>, q: Query, limit: nat) returns (out: seq<nat>)
    ensures out == Front(Hits(entries, q, |entries|), PageSize(limit))
    ensures FirstAnswers(entries, q, limit, out)
  {
    FrontAnswers(entries, q, limit);
    out := [];
    var skipping := q.anchor.Some?;
    for i := 0 to |entries|
      invariant skipping == !PastAnchor(entries, q, i)
      invariant out == Hits(entries, q, i) && |out| < PageSize(limit)
    {
      var e := entries[i];
      if skipping {
        if e.id == q.anchor.value {
          skipping := false;
        }
        continue;
      }
      if q.beforeSeq.Some? && e.seqNo >= q.beforeSeq.value {
        continue;
      }
      if q.match_.Some? && !q.match_.value(e) {
        continue;
      }
      out := out + [i];
      if |out| >= limit {
        HitsGrow(entries, q, i + 1, |entries|);
        break;
      }
    }
  }

  // ----- Paging by sequence number -------------------------------------------

  /** Newest first: ring order agrees with sequence order. */
  ghost predicate Descending(s: seq<Entry>) {
    forall i, j :: 0 <= i < j < |s| ==> s[i].seqNo > s[j].seqNo
  }

  function SeqQuery(before: Option<int>, keep: Entry -> bool): Query { Query(None, before, Some(keep)) }

  /** The entries of a snapshot that match and lie before the cursor. */
  function Matching(entries: seq<Entry>, before: Option<int>, keep: Entry -> bool): seq<Entry> {
    if entries == [] then []
    else
      var init, last := Matching(entries[..|entries| - 1], before, keep), entries[|entries| - 1];
      if Wanted(SeqQuery(before, keep), last) then init + [last] else init
  }

  /** Exactly the entries below the cursor that match, as often as they are there. */
  lemma {:induction false} MatchingCounts(entries: seq<Entry>, before: Option<int>, keep: Entry -> bool, e: Entry)
    ensures multiset(Matching(entries, before, keep))[e] ==
            if (before.Some? ==> e.seqNo < before.value) && keep(e) then multiset(entries)[e] else 0
  {
    if entries != [] {
      var init, last := entries[..|entries| - 1], entries[|entries| - 1];
      MatchingCounts(init, before, keep, e);
      assert entries == init + [last];
    }
  }

  function Pick(entries: seq<Entry>, idx: seq<nat>): (r: seq<Entry>)
    requires forall k :: 0 <= k < |idx| ==> idx[k] < |entries|
    ensures |r| == |idx|
  {
    seq(|idx|, k requires 0 <= k < |idx| => entries[idx[k]])
  }

  lemma {:induction false} HitsAreMatching(entries: seq<Entry>, before: Option<int>, keep: Entry -> bool, n: nat)
    requires n <= |entries|
    ensures Pick(entries, Hits(entries, SeqQuery(before, keep), n)) == Matching(entries[..n], before, keep)
  {
    if n > 0 {
      HitsAreMatching(entries, before, keep, n - 1);
      assert entries[..n][..n - 1] == entries[..n - 1];
    }
  }

  /** The page a client gets for a cursor. */
  function PageBefore(entries: seq<Entry>, before: Option<int>, keep: Entry -> bool, limit: nat): seq<Entry> {
    Front(Matching(entries, before, keep), PageSize(limit))
  }

  lemma PickFront(entries: seq<Entry>, idx: seq<nat>, n: nat)
    requires forall k :: 0 <= k < |idx| ==> idx[k] < |entries|
    ensures Pick(entries, Front(idx, n)) == Front(Pick(entries, idx), n)
  {
  }

  /** PageBefore is what the page walk returns. */
  lemma PageIsPageBefore(entries: seq<Entry>, before: Option<int>, keep: Entry -> bool, limit: nat)
    ensures Pick(entries, Front(Hits(entries, SeqQuery(before, keep), |entries|), PageSize(limit))) ==
            PageBefore(entries, before, keep, limit)
  {
    HitsAreMatching(entries, before, keep, |entries|);
    PickFront(entries, Hits(entries, SeqQuery(before, keep), |entries|), PageSize(limit));
    assert entries[..|entries|] == entries;
  }

  /** What lies before a cursor. */
  function Below(s: seq<Entry>, cut: int): (r: seq<Entry>)
    ensures |r| <= |s|
  {
    if s == [] then []
    else
      var init, last := Below(s[..|s| - 1], cut), s[|s| - 1];
      if last.seqNo < cut then init + [last] else init
  }

  lemma BelowSnoc(s: seq<Entry>, e: Entry, cut: int)
    ensures Below(s + [e], cut) == if e.seqNo < cut then Below(s, cut) + [e] else Below(s, cut)
  {
    assert (s + [e])[..|s|] == s;
  }

  lemma {:induction false} BelowConcat(s: seq<Entry>, t: seq<Entry>, cut: int)
    ensures Below(s + t, cut) == Below(s, cut) + Below(t, cut)
  {
    if t == [] {
      assert s + t == s;
    } else {
      var t', e := t[..|t| - 1], t[|t| - 1];
      BelowConcat(s, t', cut);
      BelowJoin(s, t', e, cut);
      assert t == t' + [e];
    }
  }

  lemma Assoc(a: seq<Entry>, b: seq<Entry>, c: seq<Entry>)
    ensures a + (b + c) == a + b + c
  {
  }

  lemma BelowJoin(s: seq<Entry>, t: seq<Entry>, e: Entry, cut: int)
    requires Below(s + t, cut) == Below(s, cut) + Below(t, cut)
    ensures Below(s + (t + [e]), cut) == Below(s, cut) + Below(t + [e], cut)
  {
    Assoc(s, t, [e]);
    Assoc(Below(s, cut), Below(t, cut), [e]);
    BelowSnoc(s + t, e, cut);
    BelowSnoc(t, e, cut);
  }

  lemma {:induction false} BelowIn(s: seq<Entry>, cut: int, e: Entry)
    ensures e in Below(s, cut) <==> e in s && e.seqNo < cut
  {
    if s != [] {
      var n := |s| - 1;
      BelowIn(s[..n], cut, e);
      assert s == s[..n] + [s[n]];
    }
  }

  lemma {:induction false} BelowAll(s: seq<Entry>, cut: int)
    requires forall k :: 0 <= k < |s| ==> s[k].seqNo < cut
    ensures Below(s, cut) == s
  {
    if s != [] {
      var n := |s| - 1;
      BelowAll(s[..n], cut);
      assert s == s[..n] + [s[n]];
    }
  }

  lemma {:induction false} BelowNone(s: seq<Entry>, cut: int)
    requires forall k :: 0 <= k < |s| ==> s[k].seqNo >= cut
    ensures Below(s, cut) == []
  {
    if s != [] { BelowNone(s[..|s| - 1], cut); }
  }

  lemma {:induction false} BelowShorter(s: seq<Entry>, cut: int, k: nat)
    requires k < |s| && s[k].seqNo >= cut
    ensures |Below(s, cut)| < |s|
  {
    var n := |s| - 1;
    if k < n { BelowShorter(s[..n], cut, k); }
  }

  lemma {:induction false} MatchingWanted(entries: seq<Entry>, before: Option<int>, keep: Entry -> bool, k: nat)
    requires k < |Matching(entries, before, keep)|
    ensures Wanted(SeqQuery(before, keep), Matching(entries, before, keep)[k])
  {
    var n := |entries| - 1;
    if k < |Matching(entries[..n], before, keep)| { MatchingWanted(entries[..n], before, keep, k); }
  }

  /** Moving the cursor back filters what matched. */
  lemma {:induction false} MatchingBelow(entries: seq<Entry>, before: Option<int>, keep: Entry -> bool, cut: int)
    requires before.Some? ==> cut <= before.value
    ensures Matching(entries, Some(cut), keep) == Below(Matching(entries, before, keep), cut)
  {
    if entries != [] {
      var n := |entries| - 1;
      MatchingBelow(entries[..n], before, keep, cut);
      var m := Matching(entries[..n], before, keep);
      BelowSnoc(m, entries[n], cut);
    }
  }

  // ----- What a cursor leaves ------------------------------------------------

  /** The last of the first n matches is older than no match before it and newer
      than every match after it. */
  predicate Boundary(m: seq<Entry>, n: nat)
    requires 0 < n <= |m|
  {
    (forall i :: 0 <= i < n ==> m[i].seqNo >= m[n - 1].seqNo) && (forall j :: n <= j < |m| ==> m[j].seqNo < m[n - 1].seqNo)
  }

  ghost predicate Distinct(m: seq<Entry>) { forall i, j :: 0 <= i < j < |m| ==> m[i].seqNo != m[j].seqNo }

  lemma BelowSplit(m: seq<Entry>, n: nat, cut: int)
    requires n <= |m|
    ensures Below(m, cut) == Below(m[..n], cut) + Below(m[n..], cut)
  {
    assert m == m[..n] + m[n..];
    BelowConcat(m[..n], m[n..], cut);
  }

  lemma BoundaryLeavesRest(m: seq<Entry>, n: nat)
    requires 0 < n <= |m| && Boundary(m, n)
    ensures Below(m, m[n - 1].seqNo) == m[n..]
  {
    var cut := m[n - 1].seqNo;
    BelowSplit(m, n, cut);
    BelowNone(m[..n], cut);
    BelowAll(m[n..], cut);
  }

  lemma NotInRest(m: seq<Entry>, n: nat, i: nat)
    requires i < n <= |m| && Distinct(m)
    ensures m[i] !in m[n..]
  {
    forall j | 0 <= j < |m[n..]| ensures m[n..][j] != m[i] { assert m[n..][j] == m[n + j]; }
  }

  lemma RestIsBoundary(m: seq<Entry>, n: nat)
    requires 0 < n <= |m| && Distinct(m) && Below(m, m[n - 1].seqNo) == m[n..]
    ensures Boundary(m, n)
  {
    var cut := m[n - 1].seqNo;
    forall i | 0 <= i < n ensures m[i].seqNo >= cut {
      BelowIn(m, cut, m[i]);
      NotInRest(m, n, i);
    }
    forall j | n <= j < |m| ensures m[j].seqNo < cut {
      assert m[n..][j - n] in m[n..];
      BelowIn(m, cut, m[j]);
    }
  }

  /** A cursor on the last entry of a page leaves exactly the rest if and only if
      that entry is a boundary. */
  lemma CursorLeavesRest(entries: seq<Entry>, before: Option<int>, keep: Entry -> bool, n: nat)
    requires 0 < n <= |Matching(entries, before, keep)| && Distinct(Matching(entries, before, keep))
    ensures var m := Matching(entries, before, keep);
            Matching(entries, Some(m[n - 1].seqNo), keep) == m[n..] <==> Boundary(m, n)
  {
    var m := Matching(entries, before, keep);
    MatchingWanted(entries, before, keep, n - 1);
    MatchingBelow(entries, before, keep, m[n - 1].seqNo);
    if Boundary(m, n) { BoundaryLeavesRest(m, n); } else if Below(m, m[n - 1].seqNo) == m[n..] { RestIsBoundary(m, n); }
  }

  // ----- All pages -----------------------------------------------------------

  /** The cursor the first page of m leaves. */
  function Cut(m: seq<Entry>, size: nat): int
    requires size > 0 && m != []
  {
    m[|Front(m, size)| - 1].seqNo
  }

  lemma PageShrinks(m: seq<Entry>, size: nat)
    requires size > 0 && m != []
    ensures |Below(m, Cut(m, size))| < |m|
  {
    BelowShorter(m, Cut(m, size), |Front(m, size)| - 1);
  }

  /** The next page's cursor filters what matched. */
  lemma NextMatching(entries: seq<Entry>, before: Option<int>, keep: Entry -> bool, size: nat)
    requires size > 0 && Matching(entries, before, keep) != []
    ensures var m := Matching(entries, before, keep);
            Matching(entries, Some(Cut(m, size)), keep) == Below(m, Cut(m, size)) && |Below(m, Cut(m, size))| < |m|
  {
    var m := Matching(entries, before, keep);
    MatchingWanted(entries, before, keep, |Front(m, size)| - 1);
    MatchingBelow(entries, before, keep, Cut(m, size));
    PageShrinks(m, size);
  }

  /** All pages, each fetched with the last sequence number of the one before,
      until one is empty. */
  ghost function AllPages(entries: seq<Entry>, before: Option<int>, keep: Entry -> bool, limit: nat): seq<seq<Entry>>
    decreases |Matching(entries, before, keep)|
  {
    var page := PageBefore(entries, before, keep, limit);
    if page == [] then []
    else
      NextMatching(entries, before, keep, PageSize(limit));
      [page] + AllPages(entries, Some(page[|page| - 1].seqNo), keep, limit)
  }

  function Flatten(pages: seq<seq<Entry>>): seq<Entry> {
    if pages == [] then [] else pages[0] + Flatten(pages[1..])
  }

  lemma FlattenCons(page: seq<Entry>, pages: seq<seq<Entry>>)
    ensures Flatten([page] + pages) == page + Flatten(pages)
  {
    assert ([page] + pages)[1..] == pages;
  }

  /** What paging shows of the matches m. */
  function Shown(m: seq<Entry>, size: nat): seq<Entry>
    requires size > 0
    decreases |m|
  {
    if m == [] then []
    else
      PageShrinks(m, size);
      Front(m, size) + Shown(Below(m, Cut(m, size)), size)
  }

  lemma {:induction false} PagesShow(entries: seq<Entry>, before: Option<int>, keep: Entry -> bool, limit: nat)
    ensures Flatten(AllPages(entries, before, keep, limit)) == Shown(Matching(entries, before, keep), PageSize(limit))
    decreases |Matching(entries, before, keep)|
  {
    var m, page := Matching(entries, before, keep), PageBefore(entries, before, keep, limit);
    if m != [] {
      NextMatching(entries, before, keep, PageSize(limit));
      var cut := Cut(m, PageSize(limit));
      PagesShow(entries, Some(cut), keep, limit);
      FlattenCons(page, AllPages(entries, Some(cut), keep, limit));
    }
  }

  /** Every page ends on a boundary of what it was cut from. */
  predicate Separated(m: seq<Entry>, size: nat)
    requires size > 0
    decreases |m|
  {
    m == [] || (Boundary(m, |Front(m, size)|) && Separated(m[|Front(m, size)|..], size))
  }

  lemma ShownTurn(m: seq<Entry>, size: nat, n: nat)
    requires size > 0 && m != [] && n == |Front(m, size)| && Below(m, Cut(m, size)) == m[n..] && Shown(m[n..], size) == m[n..]
    ensures Shown(m, size) == m
  {
    assert Front(m, size) + m[n..] == m;
  }

  lemma {:induction false} SeparatedShowsAll(m: seq<Entry>, size: nat)
    requires size > 0 && Separated(m, size)
    ensures Shown(m, size) == m
    decreases |m|
  {
    if m != [] {
      var n := |Front(m, size)|;
      BoundaryLeavesRest(m, n);
      SeparatedShowsAll(m[n..], size);
      ShownTurn(m, size, n);
    }
  }

  lemma FrontIn(m: seq<Entry>, size: nat)
    requires size > 0 && m != []
    ensures m[0] in Front(m, size) && forall e :: e in Front(m, size) ==> e in m
  {
    assert Front(m, size)[0] == m[0];
  }

  /** Only matches are shown, and the first of them is. */
  lemma {:induction false} ShownMatches(m: seq<Entry>, size: nat)
    requires size > 0
    ensures forall e :: e in Shown(m, size) ==> e in m
    ensures m != [] ==> m[0] in Shown(m, size)
    decreases |m|
  {
    if m != [] {
      var left := Below(m, Cut(m, size));
      PageShrinks(m, size);
      FrontIn(m, size);
      ShownMatches(left, size);
      assert Shown(m, size) == Front(m, size) + Shown(left, size);
      forall e | e in Shown(left, size) ensures e in m { BelowIn(m, Cut(m, size), e); }
    }
  }

  lemma RestShown(m: seq<Entry>, n: nat, shown: seq<Entry>)
    requires n <= |m| && multiset(m[..n] + shown) == multiset(m)
    ensures multiset(shown) == multiset(m[n..])
  {
    assert m == m[..n] + m[n..];
    forall e ensures multiset(shown)[e] == multiset(m[n..])[e] {
      assert multiset(m[..n] + shown)[e] == multiset(m[..n])[e] + multiset(shown)[e];
      assert multiset(m[..n] + m[n..])[e] == multiset(m[..n])[e] + multiset(m[n..])[e];
    }
  }

  lemma FirstBelow(s: seq<Entry>, cut: int, i: nat) returns (e: Entry)
    requires i < |s| && s[i].seqNo < cut
    ensures Below(s, cut) != [] && e == Below(s, cut)[0] && e in s && e.seqNo < cut
  {
    BelowIn(s, cut, s[i]);
    e := Below(s, cut)[0];
    assert e in Below(s, cut);
    BelowIn(s, cut, e);
  }

  /** A page that does not end on its oldest entry is partly shown again. */
  lemma ShownAgain(m: seq<Entry>, size: nat, n: nat, cut: int) returns (k: nat)
    requires size > 0 && n <= |m| && exists i :: 0 <= i < n && m[i].seqNo < cut
    ensures k < n && m[k] in Shown(Below(m, cut), size)
  {
    var i :| 0 <= i < n && m[i].seqNo < cut;
    BelowSplit(m, n, cut);
    var again := FirstBelow(m[..n], cut, i);
    assert Below(m, cut)[0] == again;
    ShownMatches(Below(m, cut), size);
    k :| 0 <= k < n && m[..n][k] == again;
  }

  /** If the rest was shown exactly once, the page ended on a boundary. */
  lemma OnceIsBoundary(m: seq<Entry>, size: nat, n: nat, shown: seq<Entry>)
    requires size > 0 && 0 < n <= |m| && Distinct(m)
    requires shown == Shown(Below(m, m[n - 1].seqNo), size) && multiset(shown) == multiset(m[n..])
    ensures Boundary(m, n)
  {
    var cut := m[n - 1].seqNo;
    ShownMatches(Below(m, cut), size);
    forall j | n <= j < |m| ensures m[j].seqNo < cut {
      assert m[n..][j - n] in m[n..];
      BelowIn(m, cut, m[j]);
      InMultiset(shown, m[n..], m[j]);
    }
    if exists i :: 0 <= i < n && m[i].seqNo < cut {
      var k := ShownAgain(m, size, n, cut);
      NotInRest(m, n, k);
      InMultiset(shown, m[n..], m[k]);
    }
  }

  lemma InMultiset(s: seq<Entry>, t: seq<Entry>, e: Entry)
    requires multiset(s) == multiset(t)
    ensures e in s <==> e in t
  {
    assert e in s <==> e in multiset(s);
    assert e in t <==> e in multiset(t);
  }

  lemma OnceTurn(m: seq<Entry>, size: nat, n: nat)
    requires size > 0 && m != [] && n == |Front(m, size)| && Distinct(m) && multiset(Shown(m, size)) == multiset(m)
    ensures Boundary(m, n) && multiset(Shown(m[n..], size)) == multiset(m[n..])
  {
    var shown := Shown(Below(m, m[n - 1].seqNo), size);
    assert Shown(m, size) == m[..n] + shown;
    RestShown(m, n, shown);
    OnceIsBoundary(m, size, n, shown);
    BoundaryLeavesRest(m, n);
  }

  lemma {:induction false} OnceIsSeparated(m: seq<Entry>, size: nat)
    requires size > 0 && Distinct(m) && multiset(Shown(m, size)) == multiset(m)
    ensures Separated(m, size)
    decreases |m|
  {
    if m != [] {
      var n := |Front(m, size)|;
      OnceTurn(m, size, n);
      OnceIsSeparated(m[n..], size);
    }
  }

  /** Paging an unchanging ring ends, and shows every matching entry exactly once
      if and only if every page ends on a boundary. */
  lemma PagingVisitsAllOnceIff(entries: seq<Entry>, before: Option<int>, keep: Entry -> bool, limit: nat)
    requires Distinct(Matching(entries, before, keep))
    ensures var m := Matching(entries, before, keep);
            multiset(Flatten(AllPages(entries, before, keep, limit))) == multiset(m) <==> Separated(m, PageSize(limit))
  {
    var m := Matching(entries, before, keep);
    PagesShow(entries, before, keep, limit);
    if Separated(m, PageSize(limit)) {
      SeparatedShowsAll(m, PageSize(limit));
    } else if multiset(Shown(m, PageSize(limit))) == multiset(m) {
      OnceIsSeparated(m, PageSize(limit));
    }
  }

  /** Descending matches are separated for every page size. */
  lemma {:induction false} DescendingSeparated(m: seq<Entry>, size: nat)
    requires size > 0 && Descending(m)
    ensures Separated(m, size)
    decreases |m|
  {
    if m != [] { DescendingSeparated(m[|Front(m, size)|..], size); }
  }

  /** For pages of one entry the condition is exactly descending order. */
  lemma {:induction false} SeparatedByOneIffDescending(m: seq<Entry>)
    ensures Separated(m, 1) <==> Descending(m)
  {
    if m != [] {
      SeparatedByOneIffDescending(m[1..]);
      assert |Front(m, 1)| == 1;
      assert forall j :: 1 <= j < |m| ==> m[j] == m[1..][j - 1];
    }
  }

  lemma {:induction false} MatchingDescends(entries: seq<Entry>, before: Option<int>, keep: Entry -> bool)
    requires Descending(entries)
    ensures Descending(Matching(entries, before, keep))
    ensures forall e :: e in Matching(entries, before, keep) ==> e in entries
  {
    if entries != [] {
      var init, last := entries[..|entries| - 1], entries[|entries| - 1];
      MatchingDescends(init, before, keep);
      assert entries == init + [last];
      var m := Matching(init, before, keep);
      forall i | 0 <= i < |m| ensures m[i].seqNo > last.seqNo { assert m[i] in init; }
    }
  }

  /** When ring order is sequence order, paging shows every matching entry exactly
      once, newest first, whatever the limit. */
  lemma PagingVisitsAllOnce(entries: seq<Entry>, before: Option<int>, keep: Entry -> bool, limit: nat)
    requires Descending(entries)
    ensures Flatten(AllPages(entries, before, keep, limit)) == Matching(entries, before, keep)
  {
    PagesShow(entries, before, keep, limit);
    MatchingDescends(entries, before, keep);
    DescendingSeparated(Matching(entries, before, keep), PageSize(limit));
    SeparatedShowsAll(Matching(entries, before, keep), PageSize(limit));
  }

  /** Overlapping adds can leave the newer of two entries behind the older; pages of
      one then show the older and never the newer. */
  lemma OverlapHidesEntry(a: Entry, b: Entry)
    requires a.seqNo < b.seqNo
    ensures Flatten(AllPages([a, b], None, _ => true, 1)) == [a]
  {
    assert [a, b][..1] == [a] && [a][..0] == [];
    assert Matching([a], None, _ => true) == [a];
    assert Matching([a, b], None, _ => true) == [a, b];
    PagesShow([a, b], None, _ => true, 1);
    BelowNone([a, b], a.seqNo);
    assert Cut([a, b], 1) == a.seqNo && Shown([], 1) == [];
  }

  // ----- Paging while entries arrive -----------------------------------------

  function CursorAfter(pages: seq<seq<Entry>>, i: nat): Option<int>
    requires i <= |pages|
  {
    if i == 0 || pages[i - 1] == [] then None else Some(pages[i - 1][|pages[i - 1]| - 1].seqNo)
  }

  /** The page's last entry, which becomes the cursor, is its oldest. */
  predicate LastIsOldest(page: seq<Entry>) {
    forall k :: 0 <= k < |page| ==> page[k].seqNo >= page[|page| - 1].seqNo
  }

  ghost predicate FetchedAt(snaps: seq<seq<Entry>>, pages: seq<seq<Entry>>, keep: Entry -> bool, limit: nat, i: nat)
    requires i < |pages| == |snaps|
  {
    pages[i] != [] && pages[i] == PageBefore(snaps[i], CursorAfter(pages, i), keep, limit)
  }

  /** pages were fetched one after the other from the snapshots, whatever these
      were at the time, each with the cursor left by the page before. */
  ghost predicate Fetched(snaps: seq<seq<Entry>>, pages: seq<seq<Entry>>, keep: Entry -> bool, limit: nat) {
    |pages| == |snaps| && forall i :: 0 <= i < |pages| ==> FetchedAt(snaps, pages, keep, limit, i)
  }

  /** Nothing at or above the cursor is ever returned. */
  lemma PageBelowCursor(snaps: seq<seq<Entry>>, pages: seq<seq<Entry>>, keep: Entry -> bool, limit: nat, i: nat, k: nat)
    requires |pages| == |snaps| && i < |pages| && FetchedAt(snaps, pages, keep, limit, i) && k < |pages[i]|
    ensures CursorAfter(pages, i).Some? ==> pages[i][k].seqNo < CursorAfter(pages, i).value
  {
    MatchingWanted(snaps[i], CursorAfter(pages, i), keep, k);
  }

  /** Cursors only move back. */
  lemma {:induction false} CursorsDescend(snaps: seq<seq<Entry>>, pages: seq<seq<Entry>>, keep: Entry -> bool, limit: nat,
                                          i: nat, j: nat, l: nat)
    requires Fetched(snaps, pages, keep, limit) && i < j < |pages| && l < |pages[j]|
    ensures pages[i] != [] && pages[j][l].seqNo < pages[i][|pages[i]| - 1].seqNo
    decreases j
  {
    assert FetchedAt(snaps, pages, keep, limit, i) && FetchedAt(snaps, pages, keep, limit, j);
    assert FetchedAt(snaps, pages, keep, limit, j - 1);
    PageBelowCursor(snaps, pages, keep, limit, j, l);
    if i < j - 1 { CursorsDescend(snaps, pages, keep, limit, i, j - 1, |pages[j - 1]| - 1); }
  }

  /** However the ring changes between requests, everything on a later page is
      strictly older than everything on a page that ends on its oldest entry: no
      entry of such a page comes again. */
  lemma LaterPagesAreOlder(snaps: seq<seq<Entry>>, pages: seq<seq<Entry>>, keep: Entry -> bool, limit: nat,
                           i: nat, j: nat, k: nat, l: nat)
    requires Fetched(snaps, pages, keep, limit) && i < j < |pages| && k < |pages[i]| && l < |pages[j]|
    requires LastIsOldest(pages[i])
    ensures pages[i][k].seqNo > pages[j][l].seqNo
  {
    CursorsDescend(snaps, pages, keep, limit, i, j, l);
  }

  /** Snapshots in sequence order, and pages of one entry, always do. */
  lemma PagesEndOnOldest(entries: seq<Entry>, before: Option<int>, keep: Entry -> bool, limit: nat)
    ensures Descending(entries) || limit <= 1 ==> LastIsOldest(PageBefore(entries, before, keep, limit))
  {
    if Descending(entries) { MatchingDescends(entries, before, keep); }
  }

  /** And the condition is exact: if the ring stands still, the next page repeats an
      entry of this one if and only if this one does not end on its oldest. */
  lemma NextPageRepeatsIff(entries: seq<Entry>, before: Option<int>, keep: Entry -> bool, limit: nat)
    requires PageBefore(entries, before, keep, limit) != []
    ensures var page := PageBefore(entries, before, keep, limit);
            var next := PageBefore(entries, Some(page[|page| - 1].seqNo), keep, limit);
            (exists e :: e in page && e in next) <==> !LastIsOldest(page)
  {
    var m, page := Matching(entries, before, keep), PageBefore(entries, before, keep, limit);
    var n := |page|;
    var cut := page[n - 1].seqNo;
    var next := PageBefore(entries, Some(cut), keep, limit);
    MatchingWanted(entries, before, keep, n - 1);
    MatchingBelow(entries, before, keep, cut);
    BelowSplit(m, n, cut);
    assert m[..n] == page;
    if !LastIsOldest(page) {
      var k :| 0 <= k < n && page[k].seqNo < cut;
      var again := FirstBelow(page, cut, k);
      assert next[0] == again && again in next;
    } else {
      forall e | e in next ensures e !in page { BelowIn(m, cut, e); }
    }
  }

  // ----- Paging the store ----------------------------------------------------

  /** Adds that do not overlap: ring order is sequence order. */
  ghost predicate InOrder(recs: seq<S.Rec>) {
    forall i, j :: 0 <= i < j < |recs| ==> recs[i].entry.seqNo < recs[j].entry.seqNo
  }

  lemma {:induction false} AcceptedInOrder(adds: seq<S.Rec>, budget: nat)
    requires InOrder(adds)
    ensures InOrder(S.Accepted(adds, budget)) && forall r :: r in S.Accepted(adds, budget) ==> r in adds
  {
    if adds != [] {
      var init, last := adds[..|adds| - 1], adds[|adds| - 1];
      AcceptedInOrder(init, budget);
      assert adds == init + [last];
      var acc := S.Accepted(init, budget);
      forall i | 0 <= i < |acc| ensures acc[i].entry.seqNo < last.entry.seqNo { assert acc[i] in init; }
    }
  }

  /** What the ring should hold after the adds. */
  function Kept(capacity: nat, adds: seq<S.Rec>, budget: nat): seq<S.Rec> {
    S.LongestFit(S.Accepted(adds, budget), capacity, budget)
  }

  /** What a snapshot of the whole ring shows after the adds. */
  function StoreSnapshot(capacity: nat, adds: seq<S.Rec>, budget: nat): seq<Entry>
    requires capacity > 0
  {
    var ring := S.AddAll(S.EmptyRing(capacity), adds, budget);
    S.EntriesOf(S.Snapshot(ring, ring.live))
  }

  lemma SnapshotIsKept(capacity: nat, adds: seq<S.Rec>, budget: nat)
    requires capacity > 0 && S.DistinctSeqs(adds)
    ensures StoreSnapshot(capacity, adds, budget) == S.EntriesOf(S.NewestFirst(Kept(capacity, adds, budget)))
  {
    var ring, kept := S.AddAll(S.EmptyRing(capacity), adds, budget), Kept(capacity, adds, budget);
    S.RingIsLongestSuffix(capacity, adds, budget);
    S.SnapshotIsNewest(ring, kept, ring.live);
    assert S.NewestFirst(kept)[..ring.live] == S.NewestFirst(kept);
  }

  lemma KeptDescends(capacity: nat, adds: seq<S.Rec>, budget: nat)
    requires InOrder(adds)
    ensures Descending(S.EntriesOf(S.NewestFirst(Kept(capacity, adds, budget))))
  {
    AcceptedInOrder(adds, budget);
    S.LongestFitIsLongest(S.Accepted(adds, budget), capacity, budget, 0);
  }

  /** After any adds that do not overlap, paging the store's snapshot shows exactly
      the matching entries of the longest fitting suffix of the accepted history,
      newest first, each once. */
  lemma PagingShowsKeptHistory(capacity: nat, adds: seq<S.Rec>, budget: nat, keep: Entry -> bool, limit: nat)
    requires capacity > 0 && InOrder(adds)
    ensures var snap := StoreSnapshot(capacity, adds, budget);
            && Descending(snap)
            && Flatten(AllPages(snap, None, keep, limit)) ==
               Matching(S.EntriesOf(S.NewestFirst(Kept(capacity, adds, budget))), None, keep)
  {
    SnapshotIsKept(capacity, adds, budget);
    KeptDescends(capacity, adds, budget);
    PagingVisitsAllOnce(StoreSnapshot(capacity, adds, budget), None, keep, limit);
  }
}
