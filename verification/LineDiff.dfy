/** The line diff of the compare view: a longest-common-subsequence table filled
    from the end, then a walk that turns it into edit operations. */
module LineDiff {

  datatype Kind = Same | Add | Del
  datatype DiffOp = DiffOp(kind: Kind, line: string)

  // ----- What a diff means ---------------------------------------------------

  /** The lines the diff says the old text has, the new text has, both have. */
  function OldLines(ops: seq<DiffOp>): seq<string> {
    if ops == [] then []
    else
      var before, op := OldLines(ops[..|ops| - 1]), ops[|ops| - 1];
      if op.kind == Add then before else before + [op.line]
  }

  function NewLines(ops: seq<DiffOp>): seq<string> {
    if ops == [] then []
    else
      var before, op := NewLines(ops[..|ops| - 1]), ops[|ops| - 1];
      if op.kind == Del then before else before + [op.line]
  }

  function SameLines(ops: seq<DiffOp>): seq<string> {
    if ops == [] then []
    else
      var before, op := SameLines(ops[..|ops| - 1]), ops[|ops| - 1];
      if op.kind == Same then before + [op.line] else before
  }

  /** at picks the elements of c out of s, left to right. */
  ghost predicate Picks(at: seq<nat>, c: seq<string>, s: seq<string>) {
    && |at| == |c|
    && (forall k :: 0 <= k < |c| ==> at[k] < |s| && s[at[k]] == c[k])
    && (forall k, l :: 0 <= k < l < |c| ==> at[k] < at[l])
  }

  ghost predicate Subsequence(c: seq<string>, s: seq<string>) {
    exists at: seq<nat> :: Picks(at, c, s)
  }

  ghost predicate Common(c: seq<string>, a: seq<string>, b: seq<string>) {
    Subsequence(c, a) && Subsequence(c, b)
  }

  // ----- The table -----------------------------------------------------------

  function Max(x: nat, y: nat): nat { if x < y then y else x }

  /** The table entry for the suffixes a[i..] and b[j..]. */
  function Lcs(a: seq<string>, b: seq<string>, i: nat, j: nat): nat
    requires i <= |a| && j <= |b|
    decreases |a| - i + |b| - j
  {
    if i == |a| || j == |b| then 0
    else if a[i] == b[j] then Lcs(a, b, i + 1, j + 1) + 1
    else Max(Lcs(a, b, i + 1, j), Lcs(a, b, i, j + 1))
  }

  /** at picks c out of s from index i on. */
  ghost predicate PicksFrom(at: seq<nat>, c: seq<string>, s: seq<string>, i: nat) {
    Picks(at, c, s) && (c != [] ==> at[0] >= i)
  }

  lemma PicksRest(at: seq<nat>, c: seq<string>, s: seq<string>, i: nat)
    requires PicksFrom(at, c, s, i) && c != []
    ensures PicksFrom(at[1..], c[1..], s, i + 1)
  {
    assert forall k :: 0 <= k < |c| - 1 ==> at[1..][k] == at[k + 1] && c[1..][k] == c[k + 1];
  }

  /** No common subsequence of two suffixes is longer than the table says. */
  lemma {:induction false} LcsIsBound(a: seq<string>, b: seq<string>, i: nat, j: nat, c: seq<string>, at: seq<nat>, bt: seq<nat>)
    requires i <= |a| && j <= |b|
    requires PicksFrom(at, c, a, i) && PicksFrom(bt, c, b, j)
    ensures |c| <= Lcs(a, b, i, j)
    decreases |a| - i + |b| - j
  {
    if c != [] {
      if a[i] == b[j] {
        PicksRest(at, c, a, i);
        PicksRest(bt, c, b, j);
        LcsIsBound(a, b, i + 1, j + 1, c[1..], at[1..], bt[1..]);
      } else if at[0] > i {
        LcsIsBound(a, b, i + 1, j, c, at, bt);
      } else {
        LcsIsBound(a, b, i, j + 1, c, at, bt);
      }
    }
  }

  lemma LongestCommon(a: seq<string>, b: seq<string>, c: seq<string>)
    requires Common(c, a, b)
    ensures |c| <= Lcs(a, b, 0, 0)
  {
    var at: seq<nat> :| Picks(at, c, a);
    var bt: seq<nat> :| Picks(bt, c, b);
    LcsIsBound(a, b, 0, 0, c, at, bt);
  }

  /** One line more changes the table by at most one, and never downwards. */
  lemma {:induction false} LcsSteps(a: seq<string>, b: seq<string>, i: nat, j: nat)
    requires i <= |a| && j <= |b|
    ensures i < |a| ==> Lcs(a, b, i + 1, j) <= Lcs(a, b, i, j) <= Lcs(a, b, i + 1, j) + 1
    ensures j < |b| ==> Lcs(a, b, i, j + 1) <= Lcs(a, b, i, j) <= Lcs(a, b, i, j + 1) + 1
    decreases |a| - i + |b| - j
  {
    if i < |a| && j < |b| {
      LcsSteps(a, b, i + 1, j);
      LcsSteps(a, b, i, j + 1);
    }
  }

  // ----- The operations ------------------------------------------------------

  lemma OpsSnoc(ops: seq<DiffOp>, op: DiffOp)
    ensures OldLines(ops + [op]) == if op.kind == Add then OldLines(ops) else OldLines(ops) + [op.line]
    ensures NewLines(ops + [op]) == if op.kind == Del then NewLines(ops) else NewLines(ops) + [op.line]
    ensures SameLines(ops + [op]) == if op.kind == Same then SameLines(ops) + [op.line] else SameLines(ops)
  {
    assert (ops + [op])[..|ops|] == ops;
  }

  lemma PicksSnoc(at: seq<nat>, c: seq<string>, s: seq<string>, line: string)
    requires Picks(at, c, s)
    ensures Picks(at, c, s + [line]) && Picks(at + [|s|], c + [line], s + [line])
  {
  }

  /** The shared lines of any list of operations are common to both sides. */
  lemma {:induction false} SameIsCommon(ops: seq<DiffOp>) returns (at: seq<nat>, bt: seq<nat>)
    ensures Picks(at, SameLines(ops), OldLines(ops)) && Picks(bt, SameLines(ops), NewLines(ops))
  {
    if ops == [] {
      at, bt := [], [];
    } else {
      var op := ops[|ops| - 1];
      at, bt := SameIsCommon(ops[..|ops| - 1]);
      PicksSnoc(at, SameLines(ops[..|ops| - 1]), OldLines(ops[..|ops| - 1]), op.line);
      PicksSnoc(bt, SameLines(ops[..|ops| - 1]), NewLines(ops[..|ops| - 1]), op.line);
      if op.kind == Same {
        at, bt := at + [|OldLines(ops[..|ops| - 1])|], bt + [|NewLines(ops[..|ops| - 1])|];
      }
    }
  }

  /** The finished table. */
  ghost function Table(a: seq<string>, b: seq<string>): seq<seq<nat>> {
    seq(|a| + 1, i requires 0 <= i <= |a| => seq(|b| + 1, j requires 0 <= j <= |b| => Lcs(a, b, i, j)))
  }

  ghost predicate Shaped(t: seq<seq<nat>>, n: nat, m: nat) {
    |t| == n + 1 && forall i :: 0 <= i <= n ==> |t[i]| == m + 1
  }

  ghost predicate EdgeAt(t: seq<seq<nat>>, n: nat, m: nat, i: nat, j: nat)
    requires Shaped(t, n, m) && i <= n && j <= m
  {
    i == n || j == m ==> t[i][j] == 0
  }

  ghost predicate StepAt(t: seq<seq<nat>>, a: seq<string>, b: seq<string>, i: nat, j: nat)
    requires Shaped(t, |a|, |b|) && i < |a| && j < |b|
  {
    t[i][j] == if a[i] == b[j] then t[i + 1][j + 1] + 1 else Max(t[i + 1][j], t[i][j + 1])
  }

  /** t is zero at its far edges and satisfies the recurrence everywhere else. */
  ghost predicate IsTable(t: seq<seq<nat>>, a: seq<string>, b: seq<string>) {
    && Shaped(t, |a|, |b|)
    && (forall i, j :: 0 <= i <= |a| && 0 <= j <= |b| ==> EdgeAt(t, |a|, |b|, i, j))
    && (forall i, j :: 0 <= i < |a| && 0 <= j < |b| ==> StepAt(t, a, b, i, j))
  }

  lemma TableIsTable(a: seq<string>, b: seq<string>)
    ensures IsTable(Table(a, b), a, b)
  {
  }

  /** The nested loops compute the one table that satisfies the recurrence. */
  method FillTable(a: seq<string>, b: seq<string>, ghost t: seq<seq<nat>>) returns (dp: array2<nat>)
    requires IsTable(t, a, b)
    ensures fresh(dp) && dp.Length0 == |a| + 1 && dp.Length1 == |b| + 1
    ensures forall i, j :: 0 <= i <= |a| && 0 <= j <= |b| ==> dp[i, j] == t[i][j]
  {
    dp := new nat[|a| + 1, |b| + 1]((_, _) => 0);
    forall j | 0 <= j <= |b| ensures t[|a|][j] == 0 { assert EdgeAt(t, |a|, |b|, |a|, j); }
    for i := |a| downto 0
      invariant forall k, l :: i <= k <= |a| && 0 <= l <= |b| ==> dp[k, l] == t[k][l]
      invariant forall k :: 0 <= k <= |a| ==> dp[k, |b|] == 0
    {
      assert EdgeAt(t, |a|, |b|, i, |b|);
      for j := |b| downto 0
        invariant forall k, l :: i < k <= |a| && 0 <= l <= |b| ==> dp[k, l] == t[k][l]
        invariant forall l :: j <= l <= |b| ==> dp[i, l] == t[i][l]
        invariant forall k :: 0 <= k <= |a| ==> dp[k, |b|] == 0
      {
        assert StepAt(t, a, b, i, j);
        dp[i, j] := if a[i] == b[j] then dp[i + 1, j + 1] + 1 else Max(dp[i + 1, j], dp[i, j + 1]);
      }
    }
  }

  /** What the walk has produced when it stands at line i of a and j of b, with
      left shared lines still to come. */
  ghost predicate WalkedTo(a: seq<string>, b: seq<string>, i: nat, j: nat, ops: seq<DiffOp>, left: nat, total: nat) {
    && i <= |a| && j <= |b|
    && OldLines(ops) == a[..i] && NewLines(ops) == b[..j]
    && |SameLines(ops)| + left == total
  }

  lemma WalkSame(a: seq<string>, b: seq<string>, i: nat, j: nat, ops: seq<DiffOp>, left: nat, total: nat)
    requires WalkedTo(a, b, i, j, ops, left + 1, total) && i < |a| && j < |b| && a[i] == b[j]
    ensures WalkedTo(a, b, i + 1, j + 1, ops + [DiffOp(Same, a[i])], left, total)
  {
    OpsSnoc(ops, DiffOp(Same, a[i]));
    assert a[..i + 1] == a[..i] + [a[i]] && b[..j + 1] == b[..j] + [b[j]];
  }

  lemma WalkDel(a: seq<string>, b: seq<string>, i: nat, j: nat, ops: seq<DiffOp>, left: nat, total: nat)
    requires WalkedTo(a, b, i, j, ops, left, total) && i < |a|
    ensures WalkedTo(a, b, i + 1, j, ops + [DiffOp(Del, a[i])], left, total)
  {
    OpsSnoc(ops, DiffOp(Del, a[i]));
    assert a[..i + 1] == a[..i] + [a[i]];
  }

  lemma WalkAdd(a: seq<string>, b: seq<string>, i: nat, j: nat, ops: seq<DiffOp>, left: nat, total: nat)
    requires WalkedTo(a, b, i, j, ops, left, total) && j < |b|
    ensures WalkedTo(a, b, i, j + 1, ops + [DiffOp(Add, b[j])], left, total)
  {
    OpsSnoc(ops, DiffOp(Add, b[j]));
    assert b[..j + 1] == b[..j] + [b[j]];
  }

  /** Between two shared lines the deletions stand before the additions. */
  ghost predicate DeletionsFirst(ops: seq<DiffOp>) {
    forall k :: 0 < k < |ops| && ops[k].kind == Del ==> ops[k - 1].kind != Add
  }

  /** Once the walk has added a line, skipping a line of a would lose a shared one. */
  ghost predicate Adding(t: seq<seq<nat>>, a: seq<string>, b: seq<string>, i: nat, j: nat, ops: seq<DiffOp>)
    requires Shaped(t, |a|, |b|) && i <= |a| && j <= |b|
  {
    ops != [] && ops[|ops| - 1].kind == Add && i < |a| ==> t[i + 1][j] < t[i][j]
  }

  /** The order kept by each turn of the walk. */
  ghost predicate InOrder(t: seq<seq<nat>>, a: seq<string>, b: seq<string>, i: nat, j: nat, ops: seq<DiffOp>) {
    && i <= |a| && j <= |b| && Shaped(t, |a|, |b|)
    && DeletionsFirst(ops) && Adding(t, a, b, i, j, ops)
  }

  lemma OrderSame(t: seq<seq<nat>>, a: seq<string>, b: seq<string>, i: nat, j: nat, ops: seq<DiffOp>)
    requires InOrder(t, a, b, i, j, ops) && i < |a| && j < |b|
    ensures InOrder(t, a, b, i + 1, j + 1, ops + [DiffOp(Same, a[i])])
  {
  }

  lemma OrderDel(t: seq<seq<nat>>, a: seq<string>, b: seq<string>, i: nat, j: nat, ops: seq<DiffOp>)
    requires InOrder(t, a, b, i, j, ops) && i < |a| && t[i + 1][j] >= t[i][j]
    ensures InOrder(t, a, b, i + 1, j, ops + [DiffOp(Del, a[i])])
  {
  }

  lemma OrderAdd(a: seq<string>, b: seq<string>, i: nat, j: nat, ops: seq<DiffOp>)
    requires i < |a| && j < |b| && InOrder(Table(a, b), a, b, i, j, ops) && Lcs(a, b, i + 1, j) < Lcs(a, b, i, j + 1)
    ensures InOrder(Table(a, b), a, b, i, j + 1, ops + [DiffOp(Add, b[j])])
  {
    LcsSteps(a, b, i + 1, j);
  }

  /** The walk through the table until one side is used up. */
  method Walk(a: seq<string>, b: seq<string>, dp: array2<nat>) returns (ops: seq<DiffOp>, i: nat, j: nat)
    requires dp.Length0 == |a| + 1 && dp.Length1 == |b| + 1
    requires forall k, l :: 0 <= k <= |a| && 0 <= l <= |b| ==> dp[k, l] == Table(a, b)[k][l]
    ensures WalkedTo(a, b, i, j, ops, 0, Lcs(a, b, 0, 0)) && (i == |a| || j == |b|)
    ensures InOrder(Table(a, b), a, b, i, j, ops)
  {
    ghost var t := Table(a, b);
    TableIsTable(a, b);
    ops := [];
    i, j := 0, 0;
    while i < |a| && j < |b|
      invariant i <= |a| && j <= |b| && WalkedTo(a, b, i, j, ops, t[i][j], t[0][0]) && InOrder(t, a, b, i, j, ops)
      decreases |a| - i + |b| - j
    {
      assert StepAt(t, a, b, i, j);
      if a[i] == b[j] {
        WalkSame(a, b, i, j, ops, t[i + 1][j + 1], t[0][0]);
        OrderSame(t, a, b, i, j, ops);
        ops, i, j := ops + [DiffOp(Same, a[i])], i + 1, j + 1;
      } else if dp[i + 1, j] >= dp[i, j + 1] {
        WalkDel(a, b, i, j, ops, t[i][j], t[0][0]);
        OrderDel(t, a, b, i, j, ops);
        ops, i := ops + [DiffOp(Del, a[i])], i + 1;
      } else {
        WalkAdd(a, b, i, j, ops, t[i][j], t[0][0]);
        OrderAdd(a, b, i, j, ops);
        ops, j := ops + [DiffOp(Add, b[j])], j + 1;
      }
    }
    assert EdgeAt(t, |a|, |b|, i, j);
  }

  /** The diff reconstructs both texts, its shared lines are common to both in
      order, and no common subsequence is longer; deletions come before additions. */
  method DiffLines(a: seq<string>, b: seq<string>) returns (ops: seq<DiffOp>)
    ensures OldLines(ops) == a && NewLines(ops) == b
    ensures Common(SameLines(ops), a, b)
    ensures forall c :: Common(c, a, b) ==> |c| <= |SameLines(ops)|
    ensures DeletionsFirst(ops)
  {
    TableIsTable(a, b);
    ghost var total := Lcs(a, b, 0, 0);
    var dp := FillTable(a, b, Table(a, b));
    var walked, i, j := Walk(a, b, dp);
    ops := Rest(a, b, walked, i, j, total);
    assert a[..|a|] == a && b[..|b|] == b;
    ghost var at, bt := SameIsCommon(ops);
    forall c | Common(c, a, b) ensures |c| <= |SameLines(ops)| {
      LongestCommon(a, b, c);
    }
  }

  /** What is left of either side once the other is used up. */
  method Rest(a: seq<string>, b: seq<string>, walked: seq<DiffOp>, i0: nat, j0: nat, ghost total: nat) returns (ops: seq<DiffOp>)
    requires WalkedTo(a, b, i0, j0, walked, 0, total) && (i0 == |a| || j0 == |b|)
    requires DeletionsFirst(walked) && (i0 < |a| && walked != [] ==> walked[|walked| - 1].kind != Add)
    ensures WalkedTo(a, b, |a|, |b|, ops, 0, total) && DeletionsFirst(ops)
  {
    var i, j := i0, j0;
    ops := walked;
    while i < |a|
      invariant WalkedTo(a, b, i, j, ops, 0, total) && (i == |a| || j == |b|)
      invariant DeletionsFirst(ops) && (i < |a| && ops != [] ==> ops[|ops| - 1].kind != Add)
    {
      WalkDel(a, b, i, j, ops, 0, total);
      ops, i := ops + [DiffOp(Del, a[i])], i + 1;
    }
    while j < |b|
      invariant WalkedTo(a, b, i, j, ops, 0, total) && i == |a| && DeletionsFirst(ops)
    {
      WalkAdd(a, b, i, j, ops, 0, total);
      ops, j := ops + [DiffOp(Add, b[j])], j + 1;
    }
  }
}
