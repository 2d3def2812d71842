/** Canonical Huffman codes: the code words assigned to a list of symbols by the numbers of words of each
    length (Annex C of ITU-T T.81), and which lists an encoder accepts. */
module CanonicalCode {
  import opened Powers
  import opened CodeLengths

  type SymbolNumber = s: nat | s < 256

  type SymbolList = v: seq<SymbolNumber> | |v| == 256 witness seq(256, _ => 0)

  type BitCounts = b: Counts | |b| == 17 witness seq(17, _ => 0)

  /** A table as sent in a DHT marker: the number of symbols of each length, and the symbols by increasing
      length. */
  datatype Table = Table(bits: BitCounts, values: SymbolList)

  /** The length of the code word at index p. */
  function SizeAt(bits: Counts, p: nat, n: nat): (s: nat)
    requires n < |bits| && p < Total(bits, n)
    ensures 1 <= s <= n && Total(bits, s - 1) <= p < Total(bits, s)
  {
    if p < Total(bits, n - 1) then SizeAt(bits, p, n - 1) else n
  }

  /** Indexes of one length follow those of the lengths before it. */
  lemma {:induction false} SizeIs(bits: Counts, p: nat, n: nat, s: nat)
    requires 1 <= s <= n < |bits| && Total(bits, s - 1) <= p < Total(bits, s)
    ensures p < Total(bits, n) && SizeAt(bits, p, n) == s
    decreases n
  {
    if s < n {
      SizeIs(bits, p, n - 1, s);
    }
  }

  lemma {:induction false} TotalGrows(bits: Counts, m: nat, n: nat)
    requires m <= n < |bits|
    ensures Total(bits, m) <= Total(bits, n)
    decreases n
  {
    if m < n {
      TotalGrows(bits, m, n - 1);
    }
  }

  /** The code word at index p, as a number of SizeAt(p) bits. */
  function CodeAt(bits: Counts, p: nat): nat
    requires |bits| == 17 && p < Total(bits, 16)
  {
    var s := SizeAt(bits, p, 16);
    2 * Scaled(bits, s - 1) + (p - Total(bits, s - 1))
  }

  /** The code words of one length are among all. */
  lemma TotalStep(bits: Counts, l: nat)
    requires |bits| == 17 && 1 <= l <= 16
    ensures Total(bits, l) == Total(bits, l - 1) + bits[l] <= Total(bits, 16)
  {
    TotalGrows(bits, l, 16);
  }

  lemma {:induction false} ScaledGrows(bits: Counts, m: nat, n: nat)
    requires m <= n < |bits|
    ensures Scaled(bits, m) * Pow2(n - m) <= Scaled(bits, n)
    decreases n
  {
    if m < n {
      ScaledGrows(bits, m, n - 1);
      Doubled(Scaled(bits, m), Pow2(n - 1 - m));
    } else {
      Pow2Zero();
    }
  }

  /** The code leaves room for one more word of the greatest length. */
  predicate LeavesRoom(bits: Counts)
    requires |bits| == 17
  {
    Total(bits, 16) > 0 ==>
      var top := Longest(bits, 16);
      Scaled(bits, top) < Pow2(top)
  }

  /** Then every length does. */
  lemma RoomAtEveryLength(bits: Counts, s: nat)
    requires |bits| == 17 && LeavesRoom(bits) && Total(bits, 16) > 0 && s <= Longest(bits, 16)
    ensures Scaled(bits, s) < Pow2(s)
  {
    var top := Longest(bits, 16);
    if Scaled(bits, s) >= Pow2(s) {
      hide Scaled, Total, Longest, Pow2;
      ScaledGrows(bits, s, top);
      Pow2Sum(s, top - s);
      AtMost(Pow2(s), Scaled(bits, s), Pow2(top - s));
    }
  }

  lemma {:induction false} SizeWithin(bits: Counts, p: nat)
    requires |bits| == 17 && p < Total(bits, 16)
    ensures bits[SizeAt(bits, p, 16)] > 0 && SizeAt(bits, p, 16) <= Longest(bits, 16)
  {
    var s := SizeAt(bits, p, 16);
    assert Total(bits, s) == Total(bits, s - 1) + bits[s];
  }

  /** No code word is all ones. */
  lemma NotAllOnes(bits: Counts, p: nat)
    requires |bits| == 17 && LeavesRoom(bits) && p < Total(bits, 16)
    ensures CodeAt(bits, p) + 1 < Pow2(SizeAt(bits, p, 16))
  {
    var s := SizeAt(bits, p, 16);
    SizeWithin(bits, p);
    RoomAtEveryLength(bits, s);
    assert Total(bits, s) == Total(bits, s - 1) + bits[s];
    assert Scaled(bits, s) == 2 * Scaled(bits, s - 1) + bits[s];
  }

  /** Later code words are beyond every continuation of earlier ones. */
  lemma CodesAscend(bits: Counts, p: nat, q: nat)
    requires |bits| == 17 && p < q < Total(bits, 16)
    ensures SizeAt(bits, p, 16) <= SizeAt(bits, q, 16)
    ensures (CodeAt(bits, p) + 1) * Pow2(SizeAt(bits, q, 16) - SizeAt(bits, p, 16)) <= CodeAt(bits, q)
  {
    hide Scaled, Total, SizeAt, Pow2;
    var s, t := SizeAt(bits, p, 16), SizeAt(bits, q, 16);
    SizesAscend(bits, p, q);
    if s < t {
      CodeEnds(bits, p);
      assert CodeAt(bits, q) >= 2 * Scaled(bits, t - 1);
      hide CodeAt;
      Beyond(bits, CodeAt(bits, p) + 1, s, t);
    } else {
      assert CodeAt(bits, p) + 1 <= CodeAt(bits, q);
      hide CodeAt;
      Pow2Zero();
    }
  }

  lemma SizesAscend(bits: Counts, p: nat, q: nat)
    requires |bits| == 17 && p < q < Total(bits, 16)
    ensures SizeAt(bits, p, 16) <= SizeAt(bits, q, 16)
  {
    hide Total;
    var s, t := SizeAt(bits, p, 16), SizeAt(bits, q, 16);
    if t < s {
      TotalGrows(bits, t, s - 1);
    }
  }

  /** A code word and the next one lie below the end of those of their length. */
  lemma CodeEnds(bits: Counts, p: nat)
    requires |bits| == 17 && p < Total(bits, 16)
    ensures CodeAt(bits, p) + 1 <= Scaled(bits, SizeAt(bits, p, 16))
  {
    var s := SizeAt(bits, p, 16);
    assert Total(bits, s) == Total(bits, s - 1) + bits[s];
    assert Scaled(bits, s) == 2 * Scaled(bits, s - 1) + bits[s];
  }

  lemma Beyond(bits: Counts, code: nat, s: nat, t: nat)
    requires 1 <= s < t < |bits| && code <= Scaled(bits, s)
    ensures code * Pow2(t - s) <= 2 * Scaled(bits, t - 1)
  {
    hide Scaled, Pow2;
    ScaledGrows(bits, s, t - 1);
    AtMost(code, Scaled(bits, s), Pow2(t - 1 - s));
    Pow2Successor(t - 1 - s);
    Doubled(code, Pow2(t - 1 - s));
  }

  lemma {:induction false} NoWordsBetween(bits: Counts, s: nat, t: nat)
    requires s <= t < |bits| && Total(bits, t) == Total(bits, s)
    ensures Scaled(bits, t) == Scaled(bits, s) * Pow2(t - s)
    decreases t
  {
    if s < t {
      TotalGrows(bits, s, t - 1);
      NoWordsBetween(bits, s, t - 1);
      assert bits[t] == 0;
      Doubled(Scaled(bits, s), Pow2(t - 1 - s));
    } else {
      Pow2Zero();
    }
  }

  /** The code words are the successive numbers of their lengths, from zero on: each is one more than the one
      before, with zeros appended where the length grows. */
  lemma Successive(bits: Counts, p: nat)
    requires |bits| == 17 && p < Total(bits, 16)
    ensures CodeAt(bits, 0) == 0
    ensures p + 1 < Total(bits, 16) ==>
      && SizeAt(bits, p, 16) <= SizeAt(bits, p + 1, 16)
      && CodeAt(bits, p + 1) == (CodeAt(bits, p) + 1) * Pow2(SizeAt(bits, p + 1, 16) - SizeAt(bits, p, 16))
  {
    hide Total, Scaled, SizeAt, CodeAt, Pow2;
    FirstZero(bits);
    if p + 1 < Total(bits, 16) {
      var s, t := SizeAt(bits, p, 16), SizeAt(bits, p + 1, 16);
      SizesAscend(bits, p, p + 1);
      Pow2Zero();
      if s == t {
        NextOfLength(bits, p);
      } else {
        FirstOfLength(bits, p);
      }
    }
  }

  lemma NextOfLength(bits: Counts, p: nat)
    requires |bits| == 17 && p + 1 < Total(bits, 16) && SizeAt(bits, p + 1, 16) == SizeAt(bits, p, 16)
    ensures CodeAt(bits, p + 1) == CodeAt(bits, p) + 1
  {
    hide Total, Scaled, SizeAt;
  }

  lemma FirstOfLength(bits: Counts, p: nat)
    requires |bits| == 17 && p + 1 < Total(bits, 16) && SizeAt(bits, p, 16) < SizeAt(bits, p + 1, 16)
    ensures CodeAt(bits, p + 1)
      == (CodeAt(bits, p) + 1) * Pow2(SizeAt(bits, p + 1, 16) - SizeAt(bits, p, 16))
  {
    hide Total, Scaled, SizeAt, Pow2;
    var s, t := SizeAt(bits, p, 16), SizeAt(bits, p + 1, 16);
    TotalGrows(bits, s, t - 1);
    assert p + 1 == Total(bits, s) == Total(bits, t - 1);
    assert CodeAt(bits, p + 1) == 2 * Scaled(bits, t - 1);
    hide CodeAt;
    LastOfLength(bits, p, s);
    NoWordsBetween(bits, s, t - 1);
    Pow2Successor(t - 1 - s);
    Doubled(Scaled(bits, s), Pow2(t - 1 - s));
  }

  lemma LastOfLength(bits: Counts, p: nat, s: nat)
    requires |bits| == 17 && p < Total(bits, 16) && s == SizeAt(bits, p, 16) && p + 1 == Total(bits, s)
    ensures CodeAt(bits, p) + 1 == Scaled(bits, s)
  {
    assert Total(bits, s) == Total(bits, s - 1) + bits[s];
    assert Scaled(bits, s) == 2 * Scaled(bits, s - 1) + bits[s];
  }

  lemma FirstZero(bits: Counts)
    requires |bits| == 17 && 0 < Total(bits, 16)
    ensures CodeAt(bits, 0) == 0
  {
    var s := SizeAt(bits, 0, 16);
    hide SizeAt;
    assert Total(bits, 0) == 0;
    assert Total(bits, s - 1) == 0;
    NoWordsBetween(bits, 0, s - 1);
  }

  /** Code word p is a prefix of code word q. */
  predicate IsPrefix(bits: Counts, p: nat, q: nat)
    requires |bits| == 17 && p < Total(bits, 16) && q < Total(bits, 16)
  {
    var s, t := SizeAt(bits, p, 16), SizeAt(bits, q, 16);
    s <= t && CodeAt(bits, q) / Pow2(t - s) == CodeAt(bits, p)
  }

  /** No code word is a prefix of another. */
  lemma PrefixFree(bits: Counts, p: nat, q: nat)
    requires |bits| == 17 && p < Total(bits, 16) && q < Total(bits, 16) && p != q
    ensures !IsPrefix(bits, p, q)
  {
    var s, t := SizeAt(bits, p, 16), SizeAt(bits, q, 16);
    if p < q {
      CodesAscend(bits, p, q);
      hide SizeAt, CodeAt, Pow2;
      QuotientAbove(CodeAt(bits, q), CodeAt(bits, p) + 1, Pow2(t - s));
    } else {
      CodesAscend(bits, q, p);
      if s <= t {
        hide SizeAt, CodeAt;
        assert s == t && Pow2(0) == 1;
        assert CodeAt(bits, q) / 1 == CodeAt(bits, q);
      }
    }
  }

  lemma QuotientAbove(x: nat, y: nat, p: nat)
    requires p > 0 && y * p <= x
    ensures y <= x / p
  {
    var r := x / p;
    assert x == p * r + x % p && x % p < p;
    if r < y {
      AtMost(r + 1, y, p);
    }
  }

  /** Tables with no more symbols than there is room for. */
  type HuffTable = t: Table | Total(t.bits, 16) <= 256 witness NoCodes()

  function NoCodes(): (t: Table)
    ensures Total(t.bits, 16) <= 256
  {
    var bits := seq(17, _ => 0);
    NothingScaled(bits, 16);
    Table(bits, seq(256, _ => 0))
  }

  // ----- tables an encoder accepts -----

  /** Whether the first n symbols are distinct and no greater than `top`. */
  predicate SymbolsOk(values: seq<nat>, n: nat, top: nat)
    requires n <= |values|
  {
    && (forall p :: 0 <= p < n ==> values[p] <= top)
    && forall p, q :: 0 <= p < q < n ==> values[p] != values[q]
  }

  function TopSymbol(isDc: bool): nat { if isDc then 15 else 255 }

  /** Accepted tables: no more than 256 symbols, room for one more code word of the greatest length, no
      symbol twice, and DC symbols no greater than 15. */
  predicate Accepted(t: Table, isDc: bool)
  {
    Total(t.bits, 16) <= 256 && LeavesRoom(t.bits) && SymbolsOk(t.values, Total(t.bits, 16), TopSymbol(isDc))
  }

  /** Code word and length of each symbol, length 0 for symbols without. */
  datatype Derived = Derived(code: CodeList, size: SizeList)

  type CodeSize = n: nat | n <= 16

  type CodeList = v: seq<nat> | |v| == 256 witness seq(256, _ => 0)

  type SizeList = v: seq<CodeSize> | |v| == 256 witness seq(256, _ => 0)

  /** The derived table gives exactly the listed symbols their code words. */
  ghost predicate Derives(t: Table, d: Derived)
    requires Total(t.bits, 16) <= 256
  {
    && (forall p :: 0 <= p < Total(t.bits, 16) ==>
          d.size[t.values[p]] == SizeAt(t.bits, p, 16) && d.code[t.values[p]] == CodeAt(t.bits, p))
    && forall s :: 0 <= s < 256 && d.size[s] > 0 ==> exists p :: 0 <= p < Total(t.bits, 16) && t.values[p] == s
  }

  /** A derived table is a prefix code without all-ones words. */
  lemma DerivedPrefixFree(t: Table, isDc: bool, d: Derived, a: nat, b: nat)
    requires Accepted(t, isDc) && Derives(t, d)
    requires a < 256 && b < 256 && a != b && 0 < d.size[a] <= d.size[b]
    ensures d.code[b] / Pow2(d.size[b] - d.size[a]) != d.code[a]
    ensures d.code[a] + 1 < Pow2(d.size[a])
  {
    hide SizeAt, CodeAt, Pow2, Total, LeavesRoom;
    var p :| 0 <= p < Total(t.bits, 16) && t.values[p] == a;
    var q :| 0 <= q < Total(t.bits, 16) && t.values[q] == b;
    PrefixFree(t.bits, p, q);
    NotAllOnes(t.bits, p);
  }
}
