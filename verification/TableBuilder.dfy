/** The table builder itself: Huffman's procedure on an array of counts, with the branches of the tree
    kept as linked lists, and the passes that turn code lengths into a table. */
module TableBuilder {
  import opened HuffmanTree
  import opened CodeLengths
  import opened OptimalTable

  /** The largest count the procedure considers. */
  const MAX_COUNT := 1_000_000_000

  /** Counters of code words of one length are octets. */
  type Octet = x: nat | x < 256

  /** The smallest nonzero count, the last such symbol in case of ties. */
  method FindSmallest(freq: array<nat>, skip: int) returns (c: int)
    requires freq.Length == 257 && forall i :: 0 <= i < 257 ==> freq[i] <= MAX_COUNT
    ensures c == Pick(freq[..], skip, 257)
  {
    c := -1;
    var v := MAX_COUNT;
    for i := 0 to 257
      invariant c == Pick(freq[..], skip, i)
      invariant v == if c < 0 then MAX_COUNT else freq[c]
    {
      if freq[i] != 0 && freq[i] <= v && i != skip {
        v := freq[i];
        c := i;
      }
    }
  }

  // ----- branches -----

  /** The list of a branch: each symbol is followed by the next, the last by nothing. */
  ghost predicate Chain(others: seq<int>, b: seq<int>) {
    && b != []
    && (forall k :: 0 <= k < |b| ==> 0 <= b[k] < |others|)
    && (forall j, k :: 0 <= j < k < |b| ==> b[j] != b[k])
    && (forall k :: 0 <= k < |b| - 1 ==> others[b[k]] == b[k + 1])
    && others[b[|b| - 1]] == -1
  }

  /** The code of everything in a branch becomes one longer. */
  method Lengthen(codesize: array<nat>, others: array<int>, c: int, ghost b: seq<int>) returns (last: int)
    requires codesize.Length == others.Length == 257 && Chain(others[..], b) && b[0] == c
    modifies codesize
    ensures last == b[|b| - 1]
    ensures forall x :: 0 <= x < 257 ==> codesize[x] == old(codesize[x]) + if x in b then 1 else 0
  {
    ghost var links := others[..];
    last := c;
    codesize[last] := codesize[last] + 1;
    ghost var k := 0;
    assert b[..1] == [c];
    while others[last] >= 0
      invariant others[..] == links
      invariant 0 <= k < |b| && last == b[k]
      invariant links[b[k]] == if k == |b| - 1 then -1 else b[k + 1]
      invariant forall x :: 0 <= x < 257 ==> codesize[x] == old(codesize[x]) + if x in b[..k + 1] then 1 else 0
      decreases |b| - k
    {
      assert links[b[k]] >= 0 && links[b[|b| - 1]] == -1;
      assert b[..k + 2] == b[..k + 1] + [b[k + 1]];
      assert b[k + 1] !in b[..k + 1];
      last := others[last];
      codesize[last] := codesize[last] + 1;
      k := k + 1;
    }
    assert b[..k + 1] == b;
  }

  /** The symbols of live entries are partitioned into branches, one for each entry of positive weight;
      owner[x] is the entry whose branch x is in. */
  ghost predicate Branches(w0: Weights, w: Weights, others: seq<int>, branches: seq<seq<int>>, owner: seq<int>) {
    && |w0| == |w| == |others| == |branches| == |owner| == 257
    && (forall r :: 0 <= r < 257 ==>
          if Live(w, r) then Chain(others, branches[r]) && branches[r][0] == r else branches[r] == [])
    && Owned(w0, w, branches, owner)
  }

  /** Every symbol is in the branch of its owner, and in no other. */
  ghost predicate Owned(w0: Weights, w: Weights, branches: seq<seq<int>>, owner: seq<int>)
    requires |w0| == |w| == |branches| == |owner| == 257
  {
    && (forall r :: 0 <= r < 257 ==> OwnedBy(w0, branches[r], owner, r))
    && forall x :: Live(w0, x) ==> Live(w, owner[x]) && x in branches[owner[x]]
  }

  ghost predicate OwnedBy(w0: Weights, branch: seq<int>, owner: seq<int>, r: int)
    requires |w0| == |owner| == 257
  {
    forall x :: x in branch ==> 0 <= x < 257 && owner[x] == r && Live(w0, x)
  }

  /** What has been added to code lengths so far, and what the rest of the procedure will add. */
  ghost predicate Sized(w0: Weights, w: Weights, codesize: seq<nat>, owner: seq<int>) {
    && |w0| == |w| == |codesize| == |owner| == 257
    && forall x :: 0 <= x < 257 ==>
         if Live(w0,
           x) then 0 <= owner[x] < 257 && Lengths(w0)[x] == codesize[x] + Lengths(w)[owner[x]] else codesize[x] == 0
  }

  /** Linking the branch of c2 behind that of c1. */
  lemma LinkedChain(others: seq<int>, a: seq<int>, b: seq<int>)
    requires Chain(others, a) && Chain(others, b) && forall x :: x in a ==> x !in b
    ensures Chain(others[a[|a| - 1] := b[0]], a + b)
  {
    var linked := others[a[|a| - 1] := b[0]];
    var c := a + b;
    forall k | 0 <= k < |c| - 1
      ensures linked[c[k]] == c[k + 1]
    {
      if k >= |a| {
        assert c[k] == b[k - |a|] && c[k] in b && a[|a| - 1] in a;
      }
    }
    assert c[|c| - 1] == b[|b| - 1] && b[|b| - 1] in b && a[|a| - 1] in a;
    forall j, k | 0 <= j < k < |c|
      ensures c[j] != c[k]
    {
      if j < |a| <= k {
        assert c[j] == a[j] && c[k] == b[k - |a|];
        assert a[j] in a && b[k - |a|] in b;
      }
    }
  }

  lemma OtherChain(others: seq<int>, b: seq<int>, x: int, y: int)
    requires Chain(others, b) && x !in b && 0 <= x < |others|
    ensures Chain(others[x := y], b)
  {
  }

  ghost function Owners(owner: seq<int>, moved: seq<int>, to: int): (r: seq<int>)
    ensures |r| == |owner|
  {
    seq(|owner|, x requires 0 <= x < |owner| => if x in moved then to else owner[x])
  }

  /** Merging two entries merges their branches. */
  lemma MergedBranches(w0: Weights, w: Weights, others: seq<int>, branches: seq<seq<int>>, owner: seq<int>)
    requires Branches(w0, w, others, branches, owner) && 0 <= Second(w)
    ensures var c1, c2 := First(w), Second(w);
      && branches[c1] != []
      && Branches(w0, Merged(w), others[branches[c1][|branches[c1]| - 1] := c2],
                  branches[c1 := branches[c1] + branches[c2]][c2 := []], Owners(owner, branches[c2], c1))
  {
    FirstTwo(w);
    MergedLive(w);
    MergedOwners(w0, w, branches, owner);
    hide First, Second, Merged, Chain;
    var c1, c2 := First(w), Second(w);
    var a, b := branches[c1], branches[c2];
    NonEmptyChain(others, a);
    NonEmptyChain(others, b);
    var last := a[|a| - 1];
    assert last in a;
    forall x | x in a
      ensures x !in b
    {
      assert owner[x] == c1;
    }
    LinkedChain(others, a, b);
    var linked, joined := others[last := c2], branches[c1 := a + b][c2 := []];
    assert owner[last] == c1;
    hide Owned, Owners;
    forall r | 0 <= r < 257 && Live(Merged(w), r) && r != c1
      ensures Chain(linked, joined[r])
    {
      assert last !in branches[r];
      OtherChain(others, branches[r], last, c2);
    }
  }

  lemma MergedOwners(w0: Weights, w: Weights, branches: seq<seq<int>>, owner: seq<int>)
    requires |w0| == |w| == |branches| == |owner| == 257 && Owned(w0, w, branches, owner) && 0 <= Second(w)
    ensures var c1, c2 := First(w), Second(w);
      Owned(w0, Merged(w), branches[c1 := branches[c1] + branches[c2]][c2 := []], Owners(owner, branches[c2], c1))
  {
    FirstTwo(w);
    MergedLive(w);
    hide First, Second, Merged;
    var c1, c2 := First(w), Second(w);
    var a, b := branches[c1], branches[c2];
    var joined, now := branches[c1 := a + b][c2 := []], Owners(owner, b, c1);
    forall r | 0 <= r < 257
      ensures OwnedBy(w0, joined[r], now, r)
    {
      if r == c1 {
        assert forall x :: x in a + b ==> x in a || x in b;
      }
    }
    forall x | Live(w0, x)
      ensures Live(Merged(w), now[x]) && x in joined[now[x]]
    {
      if owner[x] == c2 {
        assert x in a + b;
      } else if owner[x] == c1 {
        assert x in a + b;
      }
    }
  }

  lemma NonEmptyChain(others: seq<int>, b: seq<int>)
    requires Chain(others, b)
    ensures b != [] && 0 <= b[|b| - 1] < |others|
  {
  }

  /** And keeps the account of code lengths. */
  lemma MergedSizes(w0: Weights, w: Weights, others: seq<int>, branches: seq<seq<int>>, owner: seq<int>,
      before: seq<nat>, after: seq<nat>)
    requires Branches(w0, w, others, branches, owner) && 0 <= Second(w) && Sized(w0, w, before, owner) && |after| == 257
    requires var c1, c2 := First(w), Second(w);
      forall x :: 0 <= x < 257 ==> after[x] == before[x] + if x in branches[c1] || x in branches[c2] then 1 else 0
    ensures Sized(w0, Merged(w), after, Owners(owner, branches[Second(w)], First(w)))
  {
    FirstTwo(w);
    LengthsStep(w);
    hide First, Second, Merged, Chain, Lengths;
  }

  /** At the start every symbol is its own branch. */
  lemma OwnBranches(w: Weights, others: seq<int>, codesize: seq<nat>)
    requires |w| == |others| == |codesize| == 257
    requires forall i :: 0 <= i < 257 ==> others[i] == -1 && codesize[i] == 0
    ensures var branches := seq(257, r => if Live(w, r) then [r] else []);
      Branches(w, w, others, branches, seq(257, r => r)) && Sized(w, w, codesize, seq(257, r => r))
  {
    var branches, owner := seq(257, r => if Live(w, r) then [r] else []), seq(257, r => r);
    AloneOwned(w, others, branches, owner);
    hide Lengths, Branches;
  }

  lemma AloneOwned(w: Weights, others: seq<int>, branches: seq<seq<int>>, owner: seq<int>)
    requires |w| == |others| == |branches| == |owner| == 257
    requires forall i :: 0 <= i < 257 ==> others[i] == -1
    requires forall i :: 0 <= i < 257 ==> owner[i] == i && branches[i] == if Live(w, i) then [i] else []
    ensures Branches(w, w, others, branches, owner)
  {
  }

  // ----- Huffman's procedure -----

  /** All counts together stay within what the procedure considers. */
  lemma SmallCounts(w: Weights)
    requires Sum(w) <= MAX_COUNT
    ensures forall i :: 0 <= i < |w| ==> w[i] <= MAX_COUNT
    ensures 0 <= Second(w) ==> Sum(Merged(w)) == Sum(w)
  {
    forall i | 0 <= i < |w|
      ensures w[i] <= MAX_COUNT
    {
      SumAtLeast(w, i);
    }
    if 0 <= Second(w) {
      FirstTwo(w);
      SumUpdateTwo(w, First(w), w[First(w)] + w[Second(w)], Second(w), 0);
    }
  }

  /** When one entry is left, nothing more will be added. */
  lemma NothingToAdd(w0: Weights, w: Weights, codesize: seq<nat>, owner: seq<int>)
    requires Sized(w0, w, codesize, owner) && Second(w) < 0
    ensures codesize == Lengths(w0)
  {
    forall x | 0 <= x < 257
      ensures codesize[x] == Lengths(w0)[x]
    {
      if !Live(w0, x) {
        DeadLengths(w0, x);
      }
    }
  }

  /** Merge the two smallest counts until one is left, adding to the code lengths of both branches. */
  method HuffmanSizes(freq: array<nat>, codesize: array<nat>, others: array<int>)
    requires freq.Length == codesize.Length == others.Length == 257 && freq != codesize
    requires Sum(freq[..]) <= MAX_COUNT
    requires forall i :: 0 <= i < 257 ==> codesize[i] == 0 && others[i] == -1
    modifies freq, codesize, others
    ensures codesize[..] == Lengths(old(freq[..]))
  {
    hide Chain, Lengths, First, Second, Merged, Branches, Sized, Sum, LiveSet, Pick;
    ghost var w0 := freq[..];
    ghost var branches, owner := seq(257, r => if Live(w0, r) then [r] else []), seq(257, r => r);
    OwnBranches(w0, others[..], codesize[..]);
    while true
      invariant Sum(freq[..]) <= MAX_COUNT
      invariant Branches(w0, freq[..], others[..], branches, owner)
      invariant Sized(w0, freq[..], codesize[..], owner)
      decreases |LiveSet(freq[..])|
    {
      ghost var w := freq[..];
      SmallCounts(w);
      var c1 := FindSmallest(freq, -1);
      var c2 := FindSmallest(freq, c1);
      assert c1 == First(w) && c2 == Second(w) by { PicksOf(w); }
      if c2 < 0 {
        break;
      }
      MergeStep(freq, codesize, others, c1, c2, w0, branches, owner);
      branches, owner := branches[c1 := branches[c1] + branches[c2]][c2 := []], Owners(owner, branches[c2], c1);
    }
    NothingToAdd(w0, freq[..], codesize[..], owner);
  }

  lemma PicksOf(w: Weights)
    ensures First(w) == Pick(w, -1, |w|) && Second(w) == Pick(w, First(w), |w|)
  {
  }

  /** Merge c2 into c1. */
  method MergeStep(freq: array<nat>, codesize: array<nat>, others: array<int>, c1: int, c2: int,
      ghost w0: Weights, ghost branches: seq<seq<int>>, ghost owner: seq<int>)
    requires freq.Length == codesize.Length == others.Length == 257 && freq != codesize
    requires Branches(w0, freq[..], others[..], branches, owner) && Sized(w0, freq[..], codesize[..], owner)
    requires c1 == First(freq[..]) && 0 <= c2 == Second(freq[..])
    modifies freq, codesize, others
    ensures freq[..] == Merged(old(freq[..])) && |LiveSet(freq[..])| < |LiveSet(old(freq[..]))|
    ensures 0 <= c1 < 257 && c2 < 257 && |branches| == 257 && |owner| == 257
    ensures var b, o := branches[c1 := branches[c1] + branches[c2]][c2 := []], Owners(owner, branches[c2], c1);
      Branches(w0, freq[..], others[..], b, o) && Sized(w0, freq[..], codesize[..], o)
  {
    ghost var w, links, before := freq[..], others[..], codesize[..];
    TwoBranches(w0, w, links, branches, owner);
    MergedBranches(w0, w, links, branches, owner);
    FirstTwo(w);
    hide Chain, Lengths, First, Second, Merged, Branches, Sized, LiveSet, Owners, Live, Before;
    AddCounts(freq, c1, c2);
    LinkBranches(codesize, others, c1, c2, branches[c1], branches[c2]);
    MergedSizes(w0, w, links, branches, owner, before, codesize[..]);
  }

  /** The second entry's count goes to the first. */
  method AddCounts(freq: array<nat>, c1: int, c2: int)
    requires freq.Length == 257 && c1 == First(freq[..]) && 0 <= c2 == Second(freq[..])
    modifies freq
    ensures freq[..] == Merged(old(freq[..])) && |LiveSet(freq[..])| < |LiveSet(old(freq[..]))|
  {
    ghost var w := freq[..];
    FirstTwo(w);
    hide First, Second, LiveSet, Before;
    freq[c1] := freq[c1] + freq[c2];
    freq[c2] := 0;
    assert freq[..] == Merged(w);
  }

  /** The second branch is linked behind the first, and the codes of both become one longer. */
  method LinkBranches(codesize: array<nat>, others: array<int>, c1: int, c2: int, ghost a: seq<int>, ghost b: seq<int>)
    requires codesize.Length == others.Length == 257 && Chain(others[..], a) && Chain(others[..], b)
    requires a[0] == c1 && b[0] == c2 && a[|a| - 1] in a && forall x :: x in a ==> x !in b
    modifies codesize, others
    ensures 0 <= a[|a| - 1] < 257 && others[..] == old(others[..])[a[|a| - 1] := c2]
    ensures forall x :: 0 <= x < 257 ==> codesize[x] == old(codesize[x]) + if x in a || x in b then 1 else 0
  {
    NonEmptyChain(others[..], a);
    hide Chain;
    ghost var links := others[..];
    var last := Lengthen(codesize, others, c1, a);
    others[last] := c2;
    assert others[..] == links[last := c2];
    OtherChain(links, b, last, c2);
    last := Lengthen(codesize, others, c2, b);
  }

  lemma TwoBranches(w0: Weights, w: Weights, others: seq<int>, branches: seq<seq<int>>, owner: seq<int>)
    requires Branches(w0, w, others, branches, owner) && 0 <= Second(w)
    ensures var a, b := branches[First(w)], branches[Second(w)];
      && Chain(others, a) && Chain(others, b) && a[0] == First(w) && b[0] == Second(w)
      && (forall x :: x in a ==> x !in b) && a[|a| - 1] in a
  {
    FirstTwo(w);
    hide First, Second;
    var a, b := branches[First(w)], branches[Second(w)];
    assert a[|a| - 1] in a;
    forall x | x in a
      ensures x !in b
    {
      assert owner[x] == First(w);
    }
  }

  // ----- from code lengths to a table -----

  /** The counters hold the counts. */
  ghost predicate Counting(bits: array<Octet>, c: Counts)
    reads bits
  {
    bits.Length == MAX_CLEN + 1 == |c| && forall k :: 0 <= k <= MAX_CLEN ==> bits[k] == c[k]
  }

  /** Count the code words of each length; a length above 32 is an error. */
  method CountSizes(codesize: array<nat>, bits: array<Octet>) returns (ok: bool)
    requires codesize.Length == 257 && Used(codesize[..]) <= 255
    requires bits.Length == MAX_CLEN + 1 && forall k :: 0 <= k <= MAX_CLEN ==> bits[k] == 0
    modifies bits
    ensures ok <==> NoneAbove(codesize[..], MAX_CLEN)
    ensures ok ==> Counting(bits, CountAll(codesize[..]))
  {
    ghost var l := codesize[..];
    hide CountOf, Used;
    assert Counting(bits, CountAll(l[..0])) by { CountNothing(l[..0]); }
    for i := 0 to 257
      invariant codesize[..] == l
      invariant NoneAbove(l[..i], MAX_CLEN) && Counting(bits, CountAll(l[..i]))
    {
      assert l[..i + 1] == l[..i] + [l[i]];
      if codesize[i] != 0 {
        if codesize[i] > MAX_CLEN {
          return false;
        }
        CountOneMore(l, i);
        CountIsOctet(l, i + 1, l[i]);
        bits[codesize[i]] := bits[codesize[i]] + 1;
      } else {
        CountOneMore(l, i);
      }
    }
    assert l[..257] == l;
    ok := true;
  }

  lemma CountNothing(l: seq<nat>)
    requires l == []
    ensures forall k :: 0 <= k <= MAX_CLEN ==> CountAll(l)[k] == 0
  {
  }

  /** No count exceeds the number of symbols. */
  lemma {:induction false} CountIsOctet(l: seq<nat>, n: nat, k: nat)
    requires n <= |l| && Used(l) <= 255 && 1 <= k
    ensures CountOf(l[..n], k) <= 255
  {
    CountBelowUsed(l, k);
    CountPrefix(l, n, k);
  }

  lemma {:induction false} CountBelowUsed(l: seq<nat>, k: nat)
    requires 1 <= k
    ensures CountOf(l, k) <= Used(l)
    decreases |l|
  {
    if l != [] {
      CountBelowUsed(l[..|l| - 1], k);
    }
  }

  lemma {:induction false} CountPrefix(l: seq<nat>, n: nat, k: nat)
    requires n <= |l|
    ensures CountOf(l[..n], k) <= CountOf(l, k)
    decreases |l|
  {
    if n < |l| {
      CountPrefix(l[..|l| - 1], n, k);
      assert l[..|l| - 1][..n] == l[..n];
    } else {
      assert l[..n] == l;
    }
  }

  /** Take one pair of code words of length i away. */
  method MovePair(bits: array<Octet>, i: int, ghost c: Counts)
    requires Counting(bits, c) && 16 < i <= MAX_CLEN && Complete(c, i) && bits[i] > 0 && Total(c, i) <= 255
    modifies bits
    ensures c[i] >= 2 && (exists j :: 1 <= j <= i - 2 && c[j] > 0) && Counting(bits, Moved(c, i, Donor(c, i - 2)))
  {
    PairAndDonor(c, i);
    hide Total, Complete;
    var j := i - 2;
    while bits[j] == 0
      invariant 1 <= j <= i - 2 && exists k :: 1 <= k <= j && c[k] > 0
      invariant Donor(c, i - 2) == Donor(c, j)
      decreases j
    {
      j := j - 1;
    }
    MovedOctets(c, i, j);
    bits[i] := bits[i] - 2;
    bits[i - 1] := bits[i - 1] + 1;
    bits[j + 1] := bits[j + 1] + 2;
    bits[j] := bits[j] - 1;
  }

  /** No counter overflows on the way. */
  lemma MovedOctets(c: Counts, i: nat, j: nat)
    requires i < |c| && Total(c, i) <= 255 && c[i] >= 2 && 1 <= j && j + 2 <= i && c[j] > 0
    ensures c[i - 1] + 3 <= 255 && c[j + 1] + 2 <= 255
  {
    TotalThree(c, j, j + 1, i);
    TotalThree(c, j, i - 1, i);
  }

  lemma {:induction false} TotalThree(c: Counts, h: nat, j: nat, i: nat)
    requires 1 <= h < j < i < |c|
    ensures c[h] + c[j] + c[i] <= Total(c, i)
  {
    TotalAtLeast(c, j, i - 1);
  }

  /** Take pairs away until no code word is longer than 16. */
  method LimitSizes(bits: array<Octet>, ghost c: Counts)
    requires Counting(bits, c) && Complete(c, MAX_CLEN) && Total(c, MAX_CLEN) <= 255
    modifies bits
    ensures Counting(bits, Limited(c, MAX_CLEN))
  {
    hide Scaled, Total, Donor, Moved, Cleared, Limited, Complete;
    var i := MAX_CLEN;
    ghost var now := c;
    while i > 16
      invariant 16 <= i <= MAX_CLEN
      invariant Counting(bits, now) && Complete(now, i) && Total(now, i) <= 255
      invariant Limited(now, i) == Limited(c, MAX_CLEN)
    {
      ClearLength(bits, i, now);
      ClearedTotal(now, i);
      LowerTop(Cleared(now, i), i);
      assert Limited(now, i) == Limited(Cleared(now, i), i - 1) by { LimitedStep(now, i); }
      now := Cleared(now, i);
      i := i - 1;
    }
    assert Limited(now, 16) == now by { LimitedLast(now); }
  }

  lemma LimitedStep(c: Counts, i: nat)
    requires Complete(c, i) && i > 16 && i < |c|
    ensures Complete(Cleared(c, i), i - 1) && Limited(c, i) == Limited(Cleared(c, i), i - 1)
  {
    LowerTop(Cleared(c, i), i);
  }

  lemma LimitedLast(c: Counts)
    requires Complete(c, 16)
    ensures Limited(c, 16) == c
  {
  }

  method ClearLength(bits: array<Octet>, i: int, ghost c: Counts)
    requires Counting(bits, c) && 16 < i <= MAX_CLEN && Complete(c, i) && Total(c, i) <= 255
    modifies bits
    ensures Counting(bits, Cleared(c, i))
  {
    hide Scaled, Total, Moved, Complete;
    ghost var now := c;
    while bits[i] > 0
      invariant Counting(bits, now) && Complete(now, i) && Total(now, i) <= 255
      invariant Cleared(now, i) == Cleared(c, i)
      decreases now[i]
    {
      ghost var before := now;
      PairAndDonor(now, i);
      MovedComplete(now, i, Donor(now, i - 2));
      MovedTotal(now, i, Donor(now, i - 2));
      MovePair(bits, i, now);
      now := Moved(before, i, Donor(before, i - 2));
    }
  }

  /** Withdraw the pseudo-symbol's code word. */
  method RemovePseudo(bits: array<Octet>, ghost c: Counts)
    requires Counting(bits, c) && Complete(c, 16)
    modifies bits
    ensures Counting(bits, Withdrawn(c))
  {
    var i := 16;
    while bits[i] == 0
      invariant 1 <= i <= 16 && Total(c, i) > 0 && Longest(c, 16) == Longest(c, i)
      decreases i
    {
      i := i - 1;
    }
    bits[i] := bits[i] - 1;
  }

  /** List the symbols by length of their codes. */
  method ListSymbols(codesize: array<nat>, values: array<nat>)
    requires codesize.Length == 257 && values.Length == 256 && codesize != values
    requires |Listed(codesize[..], MAX_CLEN)| <= 256
    modifies values
    ensures values[..] == Listed(codesize[..], MAX_CLEN) + old(values[..])[|Listed(codesize[..], MAX_CLEN)|..]
  {
    ghost var l, was := codesize[..], values[..];
    var p := 0;
    for i := 1 to MAX_CLEN + 1
      invariant codesize[..] == l && p <= 256 && p == |Listed(l, i - 1)|
      invariant values[..] == Listed(l, i - 1) + was[p..]
    {
      ListedGrows(l, i, MAX_CLEN);
      p := ListLength(codesize, values, i, p, l, was);
    }
  }

  lemma {:induction false} ListedGrows(l: seq<nat>, i: nat, k: nat)
    requires |l| == 257 && i <= k
    ensures |Listed(l, i)| <= |Listed(l, k)|
    decreases k
  {
    if i < k {
      ListedGrows(l, i, k - 1);
    }
  }

  lemma {:induction false} OfLengthGrows(l: seq<nat>, k: nat, m: nat, n: nat)
    requires m <= n <= |l|
    ensures |OfLength(l, k, m)| <= |OfLength(l, k, n)|
    decreases n
  {
    if m < n {
      OfLengthGrows(l, k, m, n - 1);
    }
  }

  method ListLength(codesize: array<nat>, values: array<nat>, i: int, at: int, ghost l: seq<nat>, ghost was: seq<nat>)
    returns (p: int)
    requires codesize.Length == 257 && values.Length == 256 && codesize != values && codesize[..] == l && |was| == 256
    requires 1 <= i && 0 <= at == |Listed(l, i - 1)| && |Listed(l, i)| <= 256
    requires values[..] == Listed(l, i - 1) + was[at..]
    modifies values
    ensures p == |Listed(l, i)| && values[..] == Listed(l, i) + was[p..]
  {
    p := at;
    for j := 0 to 256
      invariant codesize[..] == l && p == at + |OfLength(l, i, j)| <= 256
      invariant values[..] == Listed(l, i - 1) + OfLength(l, i, j) + was[p..]
    {
      OfLengthGrows(l, i, j + 1, 256);
      if codesize[j] == i {
        assert l[j] == i;
        values[p] := j;
        assert values[..] == Listed(l, i - 1) + (OfLength(l, i, j) + [j]) + was[p + 1..];
        p := p + 1;
      }
    }
  }

  /** Build the best table for the counts: the counts are used up, and a code of more than 32 bits is an
      error.  The unused tail of the symbol list stays as it was. */
  method GenOptimalTable(freq: array<nat>, tableBits: array<Octet>, values: array<nat>) returns (ok: bool)
    requires freq.Length == 257 && tableBits.Length == 17 && values.Length == 256 && freq != values
    requires ValidCounts(freq[..]) && Sum(WithPseudo(freq[..])) <= MAX_COUNT && Used(WithPseudo(freq[..])) <= 255
    modifies freq, tableBits, values
    ensures ok <==> Build(old(freq[..])).Built?
    ensures ok ==> var b := Build(old(freq[..]));
      && |b.bits| == 17 && (forall k :: 0 <= k < 17 ==> tableBits[k] == b.bits[k])
      && |b.values| <= 256 && values[..] == b.values + old(values[..])[|b.values|..]
    ensures !ok ==> tableBits[..] == old(tableBits[..]) && values[..] == old(values[..])
  {
    ghost var counts := freq[..];
    hide Lengths, Build, Sum, Used;
    var codesize := new nat[257](_ => 0);
    var others := new int[257](_ => -1);
    freq[256] := 1;
    assert freq[..] == WithPseudo(counts);
    HuffmanSizes(freq, codesize, others);
    ok := TableFromSizes(codesize, tableBits, values, counts);
  }

  /** The part after Huffman's procedure. */
  method TableFromSizes(codesize: array<nat>, tableBits: array<Octet>, values: array<nat>, ghost counts: seq<nat>)
    returns (ok: bool)
    requires codesize.Length == 257 && tableBits.Length == 17 && values.Length == 256 && codesize != values
    requires ValidCounts(counts) && Used(WithPseudo(counts)) <= 255 && codesize[..] == CodeSizes(counts)
    modifies tableBits, values
    ensures ok <==> Build(counts).Built?
    ensures ok ==> var b := Build(counts);
      && |b.bits| == 17 && (forall k :: 0 <= k < 17 ==> tableBits[k] == b.bits[k])
      && |b.values| <= 256 && values[..] == b.values + old(values[..])[|b.values|..]
    ensures !ok ==> tableBits[..] == old(tableBits[..]) && values[..] == old(values[..])
  {
    hide CodeSizes, Listed, CountAll, Limited, Used, Complete, Withdrawn, Total;
    ghost var l := codesize[..];
    var bits := new Octet[MAX_CLEN + 1](_ => 0);
    SizesPositive(counts);
    SameUsed(WithPseudo(counts), l);
    ok := CountSizes(codesize, bits);
    if ok {
      CountsComplete(counts);
      LimitSizes(bits, CountAll(l));
      RemovePseudo(bits, Limited(CountAll(l), MAX_CLEN));
      forall k | 0 <= k <= 16 {
        tableBits[k] := bits[k];
      }
      assert codesize[..] == l && values[..] == old(values[..]);
      ListFits(counts);
      ListSymbols(codesize, values);
    }
  }

  lemma {:induction false} SameUsed(w: Weights, l: seq<nat>)
    requires |w| == |l| && forall i :: 0 <= i < |w| ==> (l[i] > 0 <==> w[i] > 0)
    ensures Used(l) == Used(w)
    decreases |w|
  {
    if w != [] {
      SameUsed(w[..|w| - 1], l[..|l| - 1]);
    }
  }

  lemma ListFits(freq: seq<nat>)
    requires ValidCounts(freq) && NoneAbove(CodeSizes(freq), MAX_CLEN)
    ensures |Listed(CodeSizes(freq), MAX_CLEN)| <= 256
  {
    hide Listed, Total, Used, CountAll, CodeSizes;
    SizesPositive(freq);
    CountsComplete(freq);
    ListedAll(CodeSizes(freq));
    UsedAtMost(CodeSizes(freq));
  }
}
